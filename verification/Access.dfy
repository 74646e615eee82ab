/**
 Who may ask what: the checks made before the database lock, told by the caller's
 scope and the shape of the request alone.
 */
module Access {
  import opened Prelude
  import opened Repo
  import opened Protocol
  import Names

  /** An unscoped token is for every project, a scoped one for its own. */
  predicate MayUse(who: Identity, p: Bytes) {
    who.scope.None? || who.scope == Some(p)
  }

  /** A request to issue a token that makes sense: names, and one way only to say how long. */
  predicate WellFormed(t: NewToken) {
    && Names.ValidProject(t.name)
    && (t.project.Some? ==> Names.ValidProject(t.project.value))
    && if t.noExpiry then t.ttlDays.None? else t.ttlDays != Some(0)
  }

  /** The request gets as far as its locked section. */
  predicate Reaches(who: Identity, req: Request) {
    match req
    case CreateProject(body) => body.Json? && Names.ValidProject(body.value) && MayUse(who, body.value)
    case ListProjects => true
    case GetSecrets(p) => Names.ValidProject(p) && MayUse(who, p)
    case PutSecret(p, k, body) => body.Json? && Names.ValidProject(p) && Names.ValidKey(k) && MayUse(who, p)
    case DeleteSecret(p, k) => Names.ValidProject(p) && Names.ValidKey(k) && MayUse(who, p)
    case CreateToken(body) => who.scope.None? && body.Json? && WellFormed(body.value)
    case ListTokens => who.scope.None?
    case RevokeToken(name) => who.scope.None? && Names.ValidProject(name)
  }

  lemma ReachesExactly(who: Identity, req: Request)
    ensures Guard(who, req).None? <==> Reaches(who, req)
  {
  }

  /**
   403 exactly for a token of another project, or a scoped one on the token
   endpoints. `put_secret` says so before it looks at the key, `delete_secret`
   only for an admitted key.
   */
  lemma ForbiddenExactly(who: Identity, req: Request)
    ensures Guard(who, req) == Some(Forbidden) <==>
            match req
            case CreateProject(body) => body.Json? && Names.ValidProject(body.value) && !MayUse(who, body.value)
            case ListProjects => false
            case GetSecrets(p) => Names.ValidProject(p) && !MayUse(who, p)
            case PutSecret(p, _, body) => body.Json? && Names.ValidProject(p) && !MayUse(who, p)
            case DeleteSecret(p, k) => Names.ValidProject(p) && Names.ValidKey(k) && !MayUse(who, p)
            case _ => who.scope.Some?
  {
  }

  /** 413 exactly for an oversized body, which an admin endpoint looks at only after the scope. */
  lemma TooLargeExactly(who: Identity, req: Request)
    ensures Guard(who, req) == Some(PayloadTooLarge) <==>
            match req
            case CreateProject(body) => body.TooLarge?
            case PutSecret(_, _, body) => body.TooLarge?
            case CreateToken(body) => who.scope.None? && body.TooLarge?
            case _ => false
  {
  }

  /** Every other refusal is a 400. */
  lemma OtherwiseBadRequest(who: Identity, req: Request)
    ensures Guard(who, req).Some? ==>
              var e := Guard(who, req).value;
              e == Forbidden || e == PayloadTooLarge || e.BadRequest?
  {
  }
}
