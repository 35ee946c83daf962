/**
 * The two permission classes of backend/api/permissions.py. Each check is a
 * boolean formula over the request method, the requesting user's flags and,
 * for object checks, the recipe's author.
 */
module Permissions {
  import opened Common

  /** `rest_framework.permissions.SAFE_METHODS` */
  const SafeMethods: set<string> := {"GET", "HEAD", "OPTIONS"}

  predicate IsSafe(httpMethod: string) { httpMethod in SafeMethods }

  /** `IsAdminOrReadOnly.has_permission` */
  function AdminOrReadOnly(httpMethod: string, user: RequestUser): (granted: bool)
    ensures IsSafe(httpMethod) ==> granted
    ensures !IsSafe(httpMethod) ==> (granted <==> user.IsAuthenticated() && (user.IsStaff() || user.IsActive()))
  {
    IsSafe(httpMethod) || (user.IsAuthenticated() && (user.IsStaff() || user.IsActive()))
  }

  /** `IsAuthorOrAdminOrReadOnly.has_permission` */
  function AuthorOrAdminOrReadOnly(httpMethod: string, user: RequestUser): (granted: bool)
    ensures granted <==> IsSafe(httpMethod) || user.Member?
  {
    IsSafe(httpMethod) || user.IsAuthenticated()
  }

  /** `IsAuthorOrAdminOrReadOnly.has_object_permission` for a recipe written by `author` */
  function AuthorOrAdminOrReadOnlyObject(httpMethod: string, user: RequestUser, author: UserId): (granted: bool)
    ensures granted <==> IsSafe(httpMethod) || (user.Member? && (user.isStaff || user.id == author))
  {
    IsSafe(httpMethod) || user.IsStaff() || user.Is(author)
  }

  /**
   * A recipe request passes both checks of its viewset. For a method that
   * is not safe that means: a signed-in user who is staff or the author.
   */
  lemma RecipeWriteAllowedIff(httpMethod: string, user: RequestUser, author: UserId)
    requires !IsSafe(httpMethod)
    ensures AuthorOrAdminOrReadOnly(httpMethod, user) && AuthorOrAdminOrReadOnlyObject(httpMethod, user, author)
            <==> user.Member? && (user.isStaff || user.id == author)
  {
  }

  /** Reading is open to everyone, anonymous callers included. */
  lemma SafeMethodsAlwaysGranted(httpMethod: string, user: RequestUser, author: UserId)
    requires httpMethod == "GET" || httpMethod == "HEAD" || httpMethod == "OPTIONS"
    ensures AdminOrReadOnly(httpMethod, user)
    ensures AuthorOrAdminOrReadOnly(httpMethod, user) && AuthorOrAdminOrReadOnlyObject(httpMethod, user, author)
  {
  }

  /** The author passes the object check for every method. */
  lemma AuthorAlwaysPasses(httpMethod: string, author: UserId, isStaff: bool, isActive: bool)
    ensures AuthorOrAdminOrReadOnlyObject(httpMethod, Member(author, isStaff, isActive), author)
  {
  }

  /**
   * Despite its name, `IsAdminOrReadOnly` admits every active signed-in
   * user to unsafe methods, not only staff.
   */
  lemma AdminOrReadOnlyAdmitsActiveMembers(httpMethod: string, id: UserId)
    ensures AdminOrReadOnly(httpMethod, Member(id, false, true))
    ensures !IsSafe(httpMethod) ==> !AdminOrReadOnly(httpMethod, Anonymous)
  {
  }
}
