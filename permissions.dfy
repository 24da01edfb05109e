/** The three object-permission classes of the API: each is one boolean
    expression over the requester, the request and the object. */
module Permissions {

  /** Who sends a request: an anonymous visitor or a signed-in user. */
  datatype Requester = Anonymous | Member(id: nat)

  datatype HttpMethod = GET | HEAD | OPTIONS | POST | PUT | PATCH | DELETE

  /** The read-only methods of the REST framework. */
  predicate IsSafe(m: HttpMethod)
  {
    m == GET || m == HEAD || m == OPTIONS
  }

  /** `CustomUserPermissions.has_object_permission`: the `retrieve` action
      on a user is open to signed-in requesters only; every other action
      is allowed. */
  function CustomUserPermissions(action: string, requester: Requester): (allowed: bool)
    ensures action == "retrieve" ==> (allowed <==> requester.Member?)
    ensures action != "retrieve" ==> allowed
  {
    if action == "retrieve" then requester.Member? else true
  }

  /** `IsAuthor.has_object_permission` for an object written by `author`:
      the requester is signed in and is that author. */
  function IsAuthor(requester: Requester, author: nat): (allowed: bool)
    ensures allowed <==> requester.Member? && requester.id == author
    ensures requester.Anonymous? ==> !allowed
  {
    requester.Member? && requester == Member(author)
  }

  /** `IsAuthorOrReadOnly.has_object_permission`: any read-only method is
      allowed to anyone; any other method only to the object's author. An
      anonymous visitor is never equal to a user, so never the author. */
  function IsAuthorOrReadOnly(m: HttpMethod, requester: Requester, author: nat): (allowed: bool)
    ensures IsSafe(m) ==> allowed
    ensures !IsSafe(m) ==> (allowed <==> requester == Member(author))
  {
    requester == Member(author) || IsSafe(m)
  }

  /** Whoever passes `IsAuthor` passes `IsAuthorOrReadOnly` for every method,
      and a visitor who passes `IsAuthorOrReadOnly` with a writing method
      passes `IsAuthor`. */
  lemma AuthorPermissionsAgree(m: HttpMethod, requester: Requester, author: nat)
    ensures IsAuthor(requester, author) ==> IsAuthorOrReadOnly(m, requester, author)
    ensures !IsSafe(m) ==> (IsAuthorOrReadOnly(m, requester, author) <==> IsAuthor(requester, author))
  {
  }
}
