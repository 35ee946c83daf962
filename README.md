# foodgram core, modelled in Dafny

foodgram is a Django REST service where users publish recipes. They can
follow authors, mark recipes as favourites, keep a shopping cart of recipes
and download the summed ingredient list of that cart. This project models
the logic behind those features:

- **Interactions** (`backend/api/views.py`): the three add/remove actions
  `subscribe`, `favorite` and `shopping_cart`.
  - A class `Relations` holds the `Follow`, `FavoriteRecipe` and `BuyRecipe`
    tables as sets of pairs.
  - Each method is proved equal to a pure step function. The lemmas cover
    undo, rejected repetition, self-subscription, and the invariant that
    nobody follows themself.
- **ShoppingList** (`backend/api/views.py`): the effective
  `download_shopping_cart`.
  - Cart rows are joined with their ingredients and grouped by
    (name, unit), summing amounts. The grouping is proved to match a
    reference total over the table.
  - The text-building loop is proved to produce the header followed by the
    segments joined with `", "`.
- **RecipeWrite** (`backend/api/serializers.py`): `RecipeSetSerializer`'s
  `validate`, `create`, `update` and the `get_ingredient` loop. A class
  `RecipeStore` models the recipe, tag and ingredient-row tables. The
  contracts state exactly which rows exist after success and after a
  failing ingredient lookup.
- **ReadFlags** (`backend/api/serializers.py`): the `is_subscribed`,
  `is_favorited`, `is_in_shopping_cart` and `recipes_count` fields.
- **ImageField** (`backend/api/serializers.py`):
  `Base64ImageField.to_internal_value`. It splits a data URI at `;base64,`
  and derives the file extension, using a model of Python's `str.split`.
  That model is proved to round-trip with `join`.
- **Permissions** (`backend/api/permissions.py`) and **Filters**
  (`backend/api/filters.py`).
- **UserValidators** and **ColorValidator**: `validate_username` and
  `validate_color`. They are modelled with Python's regular-expression
  anchors: `\Z` is the very end of the string, while `$` also matches
  before a final newline.
- **Common** holds the identifiers, the table rows, `Option`/`Result` and
  the requesting user. **Strings** holds the decimal, `startswith`,
  `split` and `join` models.

Where the code and the documented behaviour differ, the model follows the
code:

- Amounts and cooking times are not bounded or checked for duplicates on
  write, and the model does not bound them either. The recipe model
  (backend/recipes/models.py:90-94) declares `MinValueValidator(1)` on
  `cooking_time`, but inside `models.PositiveIntegerField()(...)`, which
  calls a field instance; as written that line cannot build the field, so
  the bound cannot take effect.
- The ingredient aggregation has no ordering.
- Unsubscribing from an author one does not follow answers with the
  "already subscribed" message; see Findings.

## Model

| member | source | states |
|---|---|---|
| Interactions.AddPair | backend/api/views.py:94-100 | POST creates the pair exactly when it is absent; otherwise it is refused with the duplicate message and nothing changes. No other pair is touched. |
| Interactions.RemovePair | backend/api/views.py:101-108 | DELETE removes the pair exactly when it is present; otherwise it is refused with the missing message. No other pair is touched. |
| Interactions.SubscribeStepAsWritten | backend/api/views.py:84-108 | Subscribe as written: the self-check comes before the duplicate check, and a missing pair on DELETE reports 're-subscription'. |
| Interactions.SubscribeStep | backend/api/views.py:84-108 | Subscribe with a missing pair on DELETE reporting 'not_subscription' (views.py:40); otherwise as written. |
| Interactions.RecipeToggleStep | backend/api/views.py:157-174 | Favorite and cart toggles: POST is AddPair and DELETE is RemovePair, each with its own messages. |
| Interactions.Relations.constructor | backend/users/models.py:49-70 | The three relation tables start empty and hold no self-follow. |
| Interactions.Relations.Subscribe | backend/api/views.py:77-108 | The outcome and the new follow table are those of the code as written (SubscribeStepAsWritten), including 're-subscription' for a missing pair on DELETE. Favourites and cart are unchanged. The no-self-follow invariant is kept. |
| Interactions.Relations.Favorite | backend/api/views.py:150-174 | The outcome and the new favourites table are those of RecipeToggleStep with 're-favorite'/'not_favorite'. The other tables are unchanged. |
| Interactions.Relations.ShoppingCart | backend/api/views.py:179-205 | The outcome and the new cart table are those of RecipeToggleStep with 're-buy_recipe'/'not_buy_recipe'. The other tables are unchanged. |
| Interactions.AddThenRemoveRestores | backend/api/views.py:157-174 | A successful add followed by a successful remove gives back the original relation. |
| Interactions.RemoveThenAddRestores | backend/api/views.py:186-205 | A successful remove followed by a successful add gives back the original relation. |
| Interactions.RepeatedRequestRejected | backend/api/views.py:189-194 | Repeating a POST or a DELETE is refused and leaves the relation as the first call left it. |
| Interactions.SelfSubscribeRejectedFirst | backend/api/views.py:87-93 | Subscribing to oneself is refused with 'subscribe_to_myself' whatever the table holds, and changes nothing, in the step as written and in the corrected one. |
| Interactions.SubscribeKeepsNoSelfFollow | backend/api/views.py:87-99 | No subscribe step, as written or corrected, ever stores a pair of a user following themself. |
| Interactions.UnsubscribeMissingAsWritten | backend/api/views.py:105-108 | As written, unsubscribing without a subscription reports 're-subscription' ("already subscribed"). |
| Interactions.UnsubscribeMissingExample | backend/api/views.py:101-108 | A concrete case: with no follows, user 1 unsubscribing from user 2 is told they are already subscribed. |
| Interactions.SubscribeRejectionsMatchCause | backend/api/views.py:37-45 | After the correction, each refusal message is reported exactly when its cause holds: 'subscribe_to_myself' for a POST to oneself, 're-subscription' for a POST to another user already followed, 'not_subscription' for a DELETE of a missing follow. |
| Interactions.SubscribeCorrectionOnlyChangesMessage | backend/api/views.py:101-108 | The correction changes no table contents and no outcome other than the missing-pair DELETE. |
| ShoppingList.CartRows | backend/api/views.py:266-267 | The selected rows are exactly the table rows whose recipe is in the user's cart. |
| ShoppingList.LineOf | backend/api/views.py:268-270 | A row joined with its ingredient carries the ingredient's name and unit and the row's amount. |
| ShoppingList.Lines | backend/api/views.py:268-270 | Joining keeps one line per row, in order. |
| ShoppingList.Merge | backend/api/views.py:270 | Adding a line to the groups adds its key, keeps the keys distinct, and adds its amount to its key's total. |
| ShoppingList.GroupSum | backend/api/views.py:268-270 | `values(name, unit).annotate(Sum)`: distinct keys, exactly the keys present, and every key's total preserved. |
| ShoppingList.SumOfAppend | backend/api/views.py:270 | The total of a key over a concatenation is the sum of the two totals. |
| ShoppingList.SumOfAbsent | backend/api/views.py:270 | A key carried by no line totals zero. |
| ShoppingList.GroupAmountIsSum | backend/api/views.py:270 | With distinct keys, a group's amount is its key's total. |
| ShoppingList.KeySetCons | backend/api/views.py:268-270 | The keys of a line prepended to a sequence are its key plus the sequence's keys. |
| ShoppingList.DistinctCons | backend/api/views.py:268-270 | A prepended line keeps keys distinct exactly when its key is new and the rest are distinct. |
| ShoppingList.GroupSumTotals | backend/api/views.py:268-270 | Each aggregated group's amount is the total of its (name, unit) over all joined lines. |
| ShoppingList.GroupSumOnePerKey | backend/api/views.py:268-270 | A key has a group exactly when some line carries it, and then exactly one group. |
| ShoppingList.DistinctKeyCount | backend/api/views.py:268-270 | With distinct keys there are as many groups as keys. |
| ShoppingList.GroupIsDeterminedByKey | backend/api/views.py:268-270 | With distinct keys, a group is fully determined by its key: its name, its unit and its key's total. |
| ShoppingList.GroupsUniqueUpToOrder | backend/api/views.py:266-270 | Any grouping with distinct keys, the lines' keys and the lines' per-key totals has exactly GroupSum's groups, each once, in whatever order. |
| ShoppingList.CartTotal | backend/api/views.py:266-270 | Reference total of one (name, unit) over the table rows of the user's cart recipes; zero when no row belongs to a cart recipe. |
| ShoppingList.CartLinesSum | backend/api/views.py:266-270 | The total over the joined cart lines equals the reference total computed directly on the table. |
| ShoppingList.ShoppingListTotals | backend/api/views.py:264-270 | Every group in the downloaded list carries the cart's full total for its name and unit, once per key. |
| ShoppingList.Segment | backend/api/views.py:272-275 | A segment is a newline, the name, ' - ', the amount, a space and the unit; the amount's digits read back as the amount. |
| ShoppingList.Segments | backend/api/views.py:272-275 | One `"\n{name} - {amount} {unit}"` segment per group, in order. |
| ShoppingList.RenderHeader | backend/api/views.py:265 | The text starts with the header 'Cписок покупок:' and is the header alone exactly when there are no groups. |
| ShoppingList.HeaderOnlyIffNoCartRows | backend/api/views.py:264-277 | The downloaded text is the header alone exactly when no recipe in the user's cart has an ingredient row (an empty cart, or only recipes whose rows were never written). |
| ShoppingList.EmptyCartRendersHeader | backend/api/views.py:264-277 | An empty cart downloads as the header alone. |
| ShoppingList.RenderLength | backend/api/views.py:271-277 | The text has the header, the segments and exactly n-1 two-character separators. |
| ShoppingList.RenderStep | backend/api/views.py:271-277 | One loop iteration extends the joined text by the pending separator and the next segment. |
| ShoppingList.WriteShoppingList | backend/api/views.py:265-277 | The loop's result is the header followed by the segments joined with ", " (no separator after the last). |
| ShoppingList.DownloadShoppingCart | backend/api/views.py:264-281 | The response body is the rendering of the grouped, summed cart lines. |
| RecipeWrite.Validate | backend/api/serializers.py:189-196 | Missing or empty ingredients are refused first, then missing or empty tags. Otherwise the data passes unchanged. |
| RecipeWrite.RowsFor | backend/api/serializers.py:181-187 | One row per payload entry, in payload order, with the entry's id and amount. |
| RecipeWrite.FirstMissing | backend/api/serializers.py:182-183 | The first entry whose ingredient does not exist, or none exactly when all exist. |
| RecipeWrite.RowsOf | backend/api/serializers.py:209 | Exactly the rows of the table belonging to the recipe. |
| RecipeWrite.Without | backend/api/serializers.py:209 | The rows left after deleting the recipe's rows: all and only those of other recipes. |
| RecipeWrite.RowsOfAppend | backend/api/serializers.py:184-187 | Selecting a recipe's rows distributes over appending rows. |
| RecipeWrite.RowsOfRowsFor | backend/api/serializers.py:181-187 | Rows written for one recipe belong to that recipe and to no other. |
| RecipeWrite.RowsOfWithout | backend/api/serializers.py:209 | After the delete, the recipe has no rows and every other recipe keeps its rows. |
| RecipeWrite.UpdateReplacesRows | backend/api/serializers.py:206-212 | After update, the recipe's rows are exactly the payload's, and other recipes' rows are unchanged. |
| RecipeWrite.CreateAddsRows | backend/api/serializers.py:198-204 | After create, the new recipe's rows are exactly the payload's, and other recipes' rows are unchanged. |
| RecipeWrite.RowsOfAbsent | backend/api/serializers.py:201 | A recipe no row refers to has no rows. |
| RecipeWrite.RowsForSnoc | backend/api/serializers.py:182-187 | Writing one more entry appends its row. |
| RecipeWrite.RecipeStore.constructor | backend/api/serializers.py:198-212 | The store starts empty over the given ingredient catalogue. |
| RecipeWrite.RecipeStore.AttachIngredients | backend/api/serializers.py:181-187 | If every ingredient exists, one row per entry is appended. Otherwise the rows before the first unknown id are written and that id is reported. |
| RecipeWrite.RecipeStore.Create | backend/api/serializers.py:198-204 | A fresh recipe with the given author and fields, its tags set, and its rows as get_ingredient writes them. Other recipes' rows are unchanged. |
| RecipeWrite.RecipeStore.Update | backend/api/serializers.py:206-212 | Old rows deleted, tags replaced and new rows written. Only on success are the fields stored, and the payload's author when it names one. Other recipes' rows are unchanged. |
| RecipeWrite.Stored | backend/api/serializers.py:212 | A column updated from the payload takes the payload's value when present and keeps its value otherwise. |
| ReadFlags.IsSubscribed | backend/api/serializers.py:27-32 | False for an anonymous viewer or oneself; otherwise whether the viewer follows the user. |
| ReadFlags.IsFavorited | backend/api/serializers.py:135-140 | True exactly when a signed-in viewer has the recipe among their favourites. |
| ReadFlags.IsInShoppingCart | backend/api/serializers.py:142-147 | True exactly when a signed-in viewer has the recipe in their cart. |
| ReadFlags.FollowIsSubscribed | backend/api/serializers.py:66-68 | FollowSerializer always reports `is_subscribed` as true. |
| ReadFlags.AuthoredBy | backend/api/serializers.py:70-72 | Exactly the stored recipes whose author is the given user. |
| ReadFlags.RecipesCount | backend/api/serializers.py:70-72 | The count is the number of stored recipes whose author is the user (the size of AuthoredBy), and never exceeds the number of recipes. |
| ReadFlags.CardinalityOfSubset | backend/api/serializers.py:70-72 | A subset is no larger than its superset. |
| ReadFlags.RecipesCountAfterCreate | backend/api/serializers.py:70-72 | A new recipe raises its author's count by one and leaves every other author's count unchanged. |
| ReadFlags.Subscriptions | backend/api/views.py:66-69 | The users listed under subscriptions are exactly those the user follows. |
| ReadFlags.SubscriptionListingAgrees | backend/api/serializers.py:66-68 | On the subscriptions listing, the constant `true` agrees with the real test, since nobody follows themself. |
| ReadFlags.SubscribeSetsFlag | backend/api/serializers.py:27-32 | After a created subscription the flag is true; after a deletion it is false. |
| ReadFlags.RecipeToggleSetsFlag | backend/api/serializers.py:135-147 | After any POST the favourite/cart flag is true; after any DELETE it is false. |
| ImageField.Extension | backend/api/serializers.py:99 | The extension contains no '/', and is either the whole format or what follows its last '/'. |
| ImageField.ToInternalValue | backend/api/serializers.py:96-101 | Non-image values pass unchanged. A data-image string succeeds exactly when splitting at ';base64,' gives two pieces, and then always as Decoded: the text after the marker and 'temp.' plus the format's extension. Otherwise the error carries the piece count. |
| ImageField.DataUriRoundTrip | backend/api/serializers.py:96-100 | A data URI built from a format and a payload without ';' decodes back to that payload and that format's extension. |
| Strings.NatToString | backend/api/views.py:274 | `str(n)`: non-empty digits, with a leading zero only for zero. |
| Strings.NatToStringRoundTrip | backend/api/views.py:274 | Reading back the digits of `str(n)` gives n. |
| Strings.IntToString | backend/api/views.py:274 | `str(i)`: a minus sign exactly for negatives, then digits; a leading zero only for zero itself. |
| Strings.IntToStringRoundTrip | backend/api/views.py:274 | Reading back `str(i)` gives i, for every integer amount. |
| Strings.DigitChar | backend/api/views.py:274 | The character for a digit is a digit of that value. |
| Strings.FindFrom | backend/api/serializers.py:98 | A reported occurrence of the separator is real and at or after the start index. |
| Strings.FindFromFirst | backend/api/serializers.py:98 | No occurrence is skipped: the search reports the earliest one. |
| Strings.Split | backend/api/serializers.py:98-99 | `str.split(sep)` always yields at least one piece. |
| Strings.SplitJoinRoundTrip | backend/api/serializers.py:98-99 | Joining the pieces of a split with the separator gives back the string. |
| Strings.SplitPartsAreFree | backend/api/serializers.py:98-99 | No piece of a split contains the separator. |
| Strings.JoinSnoc | backend/api/views.py:271-277 | Joining one more part appends the separator and that part. |
| Strings.JoinLength | backend/api/views.py:271-277 | A join of n parts adds exactly n-1 separators. |
| Strings.SplitLast | backend/api/serializers.py:99 | `[-1]` of a split is what follows the last separator, or the whole string. |
| Strings.FindFromNoneBefore | backend/api/serializers.py:98 | No occurrence lies between the start index and the one found, and none after the start when nothing is found. |
| Strings.SplitInTwo | backend/api/serializers.py:98 | `(a + sep + b).split(sep)` is `[a, b]` exactly when no occurrence of sep starts inside a and none occurs in b. |
| Strings.SplitInTwoOnlyIf | backend/api/serializers.py:98 | If `a + sep + b` splits into `[a, b]`, no occurrence starts inside a and none lies in b. |
| Strings.SplitInTwoIf | backend/api/serializers.py:98 | If no occurrence starts inside a and none lies in b, `a + sep + b` splits into `[a, b]`. |
| Strings.NoneStartsInside | backend/api/serializers.py:98 | An occurrence inside a followed by part of sep would be an occurrence of the whole string starting inside a. |
| Strings.ConcatAssoc | backend/api/views.py:272-277 | Appending pieces one by one equals appending their concatenation. |
| Permissions.AdminOrReadOnly | backend/api/permissions.py:9-12 | Safe methods are always granted. Others are granted exactly to a signed-in user who is staff or active. |
| Permissions.AuthorOrAdminOrReadOnly | backend/api/permissions.py:20-22 | Granted exactly for a safe method or a signed-in user. |
| Permissions.AuthorOrAdminOrReadOnlyObject | backend/api/permissions.py:24-28 | Granted exactly for a safe method, a staff user or the recipe's author. |
| Permissions.RecipeWriteAllowedIff | backend/api/permissions.py:20-28 | An unsafe request on a recipe passes both checks exactly when the user is signed in and is staff or the author. |
| Permissions.SafeMethodsAlwaysGranted | backend/api/permissions.py:9-28 | GET, HEAD and OPTIONS pass every check, even for anonymous users. |
| Permissions.AuthorAlwaysPasses | backend/api/permissions.py:24-28 | The author passes the object check for every method. |
| Permissions.AdminOrReadOnlyAdmitsActiveMembers | backend/api/permissions.py:9-12 | Any active non-staff user is admitted to unsafe methods; anonymous users are not. |
| Filters.FilterByRelation | backend/api/filters.py:11-19 | Filters to the user's related recipes when the value is true and the user is signed in; otherwise returns the queryset. |
| Filters.FilterIsFavorited | backend/api/filters.py:11-14 | The result is a subset of the queryset. When active, it holds exactly the recipes `is_favorited` reports true for. |
| Filters.FilterIsInShoppingCart | backend/api/filters.py:16-19 | The result is a subset of the queryset. When active, it holds exactly the recipes `is_in_shopping_cart` reports true for. |
| Filters.FilterIdempotent | backend/api/filters.py:11-19 | Applying a filter twice is the same as once. |
| Filters.FiltersCommute | backend/api/filters.py:11-19 | The favourite and cart filters give the same result in either order. |
| UserValidators.UsernamePatternMatches | backend/users/validators.py:9-10 | The `re.search` of `^[\w.@+-]+\Z` succeeds: a match is non-empty and holds no newline. |
| UserValidators.Offending | backend/users/validators.py:11 | The reported set holds exactly the characters of the value outside `[\w.@+-]`. |
| UserValidators.Lower | backend/users/validators.py:15 | Same length; ASCII capitals become lower case and every other character is kept. |
| UserValidators.ValidateUsername | backend/users/validators.py:8-18 | Accepted exactly when non-empty, made of `[\w.@+-]` to the very end, and not 'me' in any case. The character check comes first and names the offending characters. |
| UserValidators.OffendingExplainsRejection | backend/users/validators.py:9-14 | A non-empty username fails the character check exactly when the reported set is non-empty. |
| UserValidators.CyrillicUsernameAccepted | backend/users/validators.py:9-10 | A username in Russian letters with '_', '.' and a digit is accepted. |
| UserValidators.EmptyUsernameRejected | backend/users/validators.py:9-14 | The empty username is refused, reporting an empty set of symbols. |
| UserValidators.TrailingNewlineRejected | backend/users/validators.py:9 | `\Z` refuses a trailing newline and reports it. |
| UserValidators.ReservedNameAnyCase | backend/foodgram/settings.py:142 | A two-letter name is refused as reserved exactly when it spells 'me' in any letter case. |
| ColorValidator.ColorPatternMatches | backend/recipes/validators.py:8-9 | The `re.match` of `^#([A-Fa-f0-9]{6})$` succeeds: a match starts with '#' and has 7 characters, or 8 with a final newline. |
| ColorValidator.ValidateColor | backend/recipes/validators.py:7-10 | Accepted exactly when the pattern matches; otherwise the error is the fixed '#RRGGBB' message. |
| ColorValidator.ColorAcceptedIff | backend/recipes/validators.py:8-9 | Accepted exactly for '#' and six hex digits, optionally followed by one final newline. |
| ColorValidator.TrailingNewlineAccepted | backend/recipes/validators.py:8-9 | `$` lets a valid colour followed by a newline through. |
| ColorValidator.ColorRejections | backend/recipes/validators.py:8-10 | Short, long, unprefixed and non-hex colours are refused; mixed-case hex is accepted. |

## Left out

- HTTP plumbing:
  - Status codes, response bodies and `get_object_or_404` lookups are not modelled; a request is assumed to name an existing user or recipe.
  - The `IsAuthenticated` guard on the actions is not modelled; the acting user is a stored user.
  - Pagination, `to_representation` and the `Content-Disposition` header are not modelled.
- The second `download_shopping_cart` has no `self` and replaces the decorated action, so no route reaches it. It is modelled only as the computation from the cart's rows to the text.
- ShoppingList.DownloadShoppingCart: the database returns the groups in an unspecified order, because the query has no `order_by`. The text is specified for first-appearance order only. GroupsUniqueUpToOrder shows that any valid grouping has the same groups, but the text for another order is not derived.
- The `FavoriteRecipe`, `BuyRecipe` and `IngredientRecipe` models are not part of this model. The code names the reverse relation from a recipe to its cart rows in two ways: `recipe__shopping_cart__user` in the download query (backend/api/views.py:267) and `buy_recipe__user` in the cart filter (backend/api/filters.py:18); the disabled code used `recipe__buy_recipe__user`. One foreign key has one related query name, so unless a second relation exists, at most one of the two lookups resolves and the other raises an error. The model gives both the meaning of the `BuyRecipe` table, and likewise takes `buy_user`, `in_favorites__user` and `favorites` to reach the cart and favourite tables.
- The commented-out PDF generation above the effective `download_shopping_cart` is dead code and is not modelled.
- ImageField.ToInternalValue: base64 decoding, `ContentFile` and the parent `ImageField` validation are left out. The result records the text to decode and the file name.
- Primary-key validation of tags and of the author by `PrimaryKeyRelatedField` is left out; the model takes them as given ids.
- RecipeWrite.RecipeStore.Update: a partial update (PATCH) that omits some plain columns keeps their stored values in the code. The model always takes all four columns from the payload.
- Transactions and concurrency are left out. Each call runs alone, and a failing ingredient lookup leaves earlier writes in place, as the code does without `atomic`.
- Integer column widths are left out, so amounts are unbounded integers. The code does not bound them on write.
- UserValidators.IsWordChar: `\w` is modelled as ASCII letters, digits and `_` plus the Russian alphabet. Python's `\w` covers every Unicode letter, digit and connector. Letters of other scripts, non-ASCII digits and combining marks are missing.
- UserValidators.ValidateUsername: because of the narrower `\w`, a username using letters of other scripts (Greek, accented Latin such as "José") is refused by the model but accepted by the code.
- UserValidators.UsernamePatternMatches: because of the narrower `\w`, the match fails for letters of other scripts ("José", "Ελένη"), where `re.search` succeeds.
- UserValidators.Offending: for the same reason, letters of other scripts are reported as offending, though the code does not report them.
- UserValidators.Lower: lower-casing is modelled for ASCII only. No non-ASCII character lower-cases to "me", so the reserved-name check is unaffected.
- The text of the username error messages is left out: the model carries the offending set and the reserved name.
- Filters.FilterIsFavorited: `RecipeFilters` declares no filter fields, so django-filter never calls these methods. They are modelled as written.

## Findings

| source | as written | input that shows it | evidently intended | confidence | as-written member | corrected member |
|---|---|---|---|---|---|---|
| backend/api/views.py:105-108 | DELETE on `users/{id}/subscribe/` without a subscription answers with 're-subscription' ("Вы уже подписаны на автора!", "already subscribed") | no follows; user 1 sends DELETE for user 2 | answer with 'not_subscription' ("Вы не подписаны на автора!"), which views.py:40 defines and nothing uses | high; not executed. The class `Relations` follows the code as written; SubscribeCorrectionOnlyChangesMessage shows the corrected step differs from it in that one message | Interactions.SubscribeStepAsWritten | Interactions.SubscribeStep |
