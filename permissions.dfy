/**
 * `IsAuthorOrReadOnly`: anyone may read, only an authenticated user may
 * write, and only an object's author may change or delete it.
 */
module Permissions {

  /** `request.user`: the anonymous user, or an authenticated user named by primary key. */
  datatype Actor = Anonymous | Member(id: nat)

  predicate IsAuthenticated(actor: Actor)
  {
    actor.Member?
  }

  /** DRF's SAFE_METHODS. */
  const SafeMethods: set<string> := {"GET", "HEAD", "OPTIONS"}

  /** `has_permission(request, view)`: the view is not consulted. */
  function HasPermission<V>(verb: string, actor: Actor, view: V): bool
  {
    verb in SafeMethods || IsAuthenticated(actor)
  }

  /**
   * `has_object_permission(request, view, obj)` for an object whose author has
   * primary key `author`. Model instances compare by primary key, and the
   * anonymous user equals no stored user.
   */
  function HasObjectPermission<V>(verb: string, actor: Actor, view: V, author: nat): bool
  {
    verb in SafeMethods || actor == Member(author)
  }

  /** Reading is open to everyone, anonymous callers included. */
  lemma SafeMethodsAlwaysPass<V>(verb: string, actor: Actor, view: V, author: nat)
    requires verb in {"GET", "HEAD", "OPTIONS"}
    ensures HasPermission(verb, actor, view)
    ensures HasObjectPermission(verb, actor, view, author)
  {
  }

  /** A write passes the view-level check exactly when the caller is authenticated. */
  lemma UnsafeNeedsAuthentication<V>(verb: string, actor: Actor, view: V)
    requires verb !in {"GET", "HEAD", "OPTIONS"}
    ensures HasPermission(verb, actor, view) <==> actor.Member?
  {
  }

  /** A write passes the object-level check exactly when the caller is the author. */
  lemma UnsafeNeedsAuthorship<V>(verb: string, actor: Actor, view: V, author: nat)
    requires verb !in {"GET", "HEAD", "OPTIONS"}
    ensures HasObjectPermission(verb, actor, view, author) <==> actor == Member(author)
  {
  }

  /**
   * Both checks together: an object can be edited or deleted by its author
   * and by nobody else, in particular never by the anonymous user.
   */
  lemma OnlyAuthorMayModify<V>(verb: string, actor: Actor, view: V, author: nat)
    requires verb !in {"GET", "HEAD", "OPTIONS"}
    ensures (HasPermission(verb, actor, view) && HasObjectPermission(verb, actor, view, author))
      <==> actor == Member(author)
    ensures actor == Anonymous ==> !HasPermission(verb, actor, view)
  {
  }

  /** Neither decision depends on the view it is asked for. */
  lemma ViewIsIgnored<V>(verb: string, actor: Actor, v1: V, v2: V, author: nat)
    ensures HasPermission(verb, actor, v1) == HasPermission(verb, actor, v2)
    ensures HasObjectPermission(verb, actor, v1, author) == HasObjectPermission(verb, actor, v2, author)
  {
  }
}
