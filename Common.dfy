/**
 * Identifiers, the requesting user and the small failure-compatible
 * wrappers shared by every other module of the model.
 */
module Common {

  /** Primary keys of the stored entities; a request may carry any integer. */
  type UserId = int
  type RecipeId = int
  type TagId = int
  type IngredientId = int

  /** A row of the `Ingredient` table: a name and its measurement unit. */
  datatype Ingredient = Ingredient(name: string, unit: string)

  /** A row of the `IngredientRecipe` join table: an amount of an ingredient in a recipe. */
  datatype IngredientRow = IngredientRow(ingredient: IngredientId, recipe: RecipeId, amount: int)

  /** The plain columns of a `Recipe` row that a write sets from the payload. */
  datatype RecipeFields = RecipeFields(name: string, image: string, text: string, cookingTime: int)

  /** A row of the `Recipe` table. */
  datatype Recipe = Recipe(author: UserId, fields: RecipeFields)

  datatype Option<+T> = None | Some(value: T)

  datatype Result<+T, +E> = Ok(value: T) | Err(error: E)

  /**
   * The user a request was authenticated as. Django represents the
   * unauthenticated caller by an anonymous user whose `is_authenticated`,
   * `is_staff` and `is_active` are all false and who equals no stored user.
   */
  datatype RequestUser =
    | Anonymous
    | Member(id: UserId, isStaff: bool, isActive: bool)
  {
    predicate IsAuthenticated() { Member? }
    predicate IsStaff() { Member? && isStaff }
    predicate IsActive() { Member? && isActive }
    /** `request.user == u` for a stored user `u`. */
    predicate Is(u: UserId) { Member? && id == u }
  }
}
