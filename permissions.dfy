/** The three permission classes of the API. Each is one boolean expression
    over the request method, the user's `is_authenticated` and `is_staff`
    attributes and, for objects, the object's author. Python's `and` binds
    tighter than `or`, and the model keeps that grouping. */
module Permissions {
  import opened Util

  /** REST framework's `SAFE_METHODS`. */
  const SafeMethods: set<string> := {"GET", "HEAD", "OPTIONS"}

  /** `request.user` as the permissions read it. `id` is `None` for the
      anonymous user, which compares unequal to every stored user. */
  datatype RequestUser = RequestUser(isAuthenticated: bool, isStaff: bool, id: Option<int>)

  datatype Request = Request(verb: string, user: RequestUser)

  /** The anonymous user Django puts on unauthenticated requests. */
  const Anonymous := RequestUser(false, false, None)

  /** `SafeMethodOrAuthUserPermission.has_permission`, inherited unchanged by
      `AdminOrReadOnly` and `OwnerOrReadOnly`. */
  function HasPermission(req: Request): (allowed: bool)
    ensures req.verb in SafeMethods ==> allowed
    ensures req.verb !in SafeMethods ==> (allowed <==> req.user.isAuthenticated)
  {
    req.verb in SafeMethods || req.user.isAuthenticated
  }

  /** `AdminOrReadOnly.has_object_permission`. */
  function AdminObjectPermission(req: Request): (allowed: bool)
    ensures req.verb in SafeMethods ==> allowed
    ensures req.verb !in SafeMethods ==> (allowed <==> req.user.isAuthenticated && req.user.isStaff)
  {
    req.verb in SafeMethods || (req.user.isAuthenticated && req.user.isStaff)
  }

  /** `OwnerOrReadOnly.has_object_permission`: `safe or (auth and user == author) or staff`. */
  function OwnerObjectPermission(req: Request, author: int): (allowed: bool)
    ensures req.verb in SafeMethods ==> allowed
    ensures req.verb !in SafeMethods ==>
      (allowed <==> (req.user.isAuthenticated && req.user.id == Some(author)) || req.user.isStaff)
  {
    req.verb in SafeMethods || (req.user.isAuthenticated && req.user.id == Some(author)) || req.user.isStaff
  }

  /** An authenticated user who is neither the author nor staff cannot change the object. */
  lemma StrangerDenied(req: Request, author: int)
    requires req.verb !in SafeMethods
    requires req.user.isAuthenticated && !req.user.isStaff && req.user.id != Some(author)
    ensures !OwnerObjectPermission(req, author)
    ensures !AdminObjectPermission(req)
    ensures HasPermission(req)
  {
  }

  /** Because of the grouping, `is_staff` alone grants `OwnerOrReadOnly`,
      whereas `AdminOrReadOnly` also wants authentication. The expressions
      differ only on an unauthenticated staff user, which Django never
      produces: the anonymous user is never staff and every stored user is
      authenticated, so no request observes the difference. */
  lemma StaffBypassesAuthentication(verb: string, author: int)
    requires verb !in SafeMethods
    ensures OwnerObjectPermission(Request(verb, RequestUser(false, true, None)), author)
    ensures !AdminObjectPermission(Request(verb, RequestUser(false, true, None)))
    ensures !HasPermission(Request(verb, RequestUser(false, true, None)))
  {
  }

  /** Raising `is_staff` never withdraws an object permission. */
  lemma StaffMonotone(req: Request, author: int)
    ensures var promoted := Request(req.verb, req.user.(isStaff := true));
      (OwnerObjectPermission(req, author) ==> OwnerObjectPermission(promoted, author))
      && (AdminObjectPermission(req) ==> AdminObjectPermission(promoted))
  {
  }

  /** The anonymous user may only read. */
  lemma AnonymousReadOnly(verb: string, author: int)
    ensures HasPermission(Request(verb, Anonymous)) <==> verb in SafeMethods
    ensures OwnerObjectPermission(Request(verb, Anonymous), author) <==> verb in SafeMethods
    ensures AdminObjectPermission(Request(verb, Anonymous)) <==> verb in SafeMethods
  {
  }
}
