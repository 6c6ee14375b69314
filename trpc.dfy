/** The guards of the procedures (src/trpc/trpc.ts): `isAuth` requires a
    caller with a non-empty id and puts that caller into the context as
    `user`; `isAdmin` requires the caller to have the `ADMIN` role. The
    request and response the context also carries are not modelled. */
module Trpc {
  import opened Wrappers
  import opened Db
  import Auth

  /** The error codes the routers use. */
  datatype Code = BadRequest | Unauthorized | Forbidden | NotFound | InternalServerError

  datatype TrpcError = TrpcError(code: Code, message: Option<string>)

  /** The context of a call: what `getAuthSessionFromRequest` found, and the
      `user` a guard has added (`None` before any guard has run). */
  datatype Context = Context(auth: Auth.AuthState, user: Option<User>)

  /** `isAuth`. */
  function IsAuth(ctx: Context): (r: Result<Context, TrpcError>)
    ensures r.Err? <==> ctx.auth.user.None? || ctx.auth.user.value.id == ""
    ensures r.Err? ==> r.error == TrpcError(Unauthorized, None)
    ensures r.Ok? ==> r.value.auth == ctx.auth && r.value.user == ctx.auth.user
  {
    var user := ctx.auth.user;
    if user.None? || user.value.id == "" then Err(TrpcError(Unauthorized, None))
    else Ok(ctx.(user := user))
  }

  /** `isAdmin`; it reads the caller from `auth`, as `isAuth` does. */
  function IsAdmin(ctx: Context): (r: Result<Context, TrpcError>)
    ensures r.Err? <==> ctx.auth.user.None? || ctx.auth.user.value.role != AdminRole
    ensures r.Err? ==> r.error == TrpcError(Forbidden, None)
    ensures r.Ok? ==> r.value.auth == ctx.auth && r.value.user == ctx.auth.user
  {
    var user := ctx.auth.user;
    if user.None? || user.value.role != AdminRole then Err(TrpcError(Forbidden, None))
    else Ok(ctx.(user := user))
  }

  datatype Procedure = PublicProcedure | PrivateProcedure | AdminProcedure

  /** The guards a procedure runs, in order: none, `isAuth`, or `isAuth` and
      then `isAdmin` on the context `isAuth` passed on. */
  function Guard(proc: Procedure, ctx: Context): Result<Context, TrpcError> {
    match proc
    case PublicProcedure => Ok(ctx)
    case PrivateProcedure => IsAuth(ctx)
    case AdminProcedure =>
      match IsAuth(ctx)
      case Err(e) => Err(e)
      case Ok(c) => IsAdmin(c)
  }

  /** A public procedure sees the context as it came. */
  lemma PublicUnguarded(ctx: Context)
    ensures Guard(PublicProcedure, ctx) == Ok(ctx)
  {
  }

  /** The admin guard lets a call through exactly when the caller has an id
      and the `ADMIN` role; the context it passes on is the one `isAuth`
      passes on. */
  lemma AdminGuardExactly(ctx: Context)
    ensures Guard(AdminProcedure, ctx).Ok? <==>
      ctx.auth.user.Some? && ctx.auth.user.value.id != "" && ctx.auth.user.value.role == AdminRole
    ensures Guard(AdminProcedure, ctx).Ok? ==> Guard(AdminProcedure, ctx) == Guard(PrivateProcedure, ctx)
  {
  }

  /** `isAuth` runs first: a caller without an id is `UNAUTHORIZED` even on
      an admin procedure, whatever their role; only a caller who has an id
      and is not an admin is `FORBIDDEN`. */
  lemma AdminGuardErrors(ctx: Context)
    ensures ctx.auth.user.None? || ctx.auth.user.value.id == "" ==>
      Guard(AdminProcedure, ctx) == Err(TrpcError(Unauthorized, None))
    ensures ctx.auth.user.Some? && ctx.auth.user.value.id != "" && ctx.auth.user.value.role != AdminRole ==>
      Guard(AdminProcedure, ctx) == Err(TrpcError(Forbidden, None))
  {
  }

  /** Every caller an admin procedure admits, a private one admits too. */
  lemma AdminIsPrivate(ctx: Context)
    ensures Guard(AdminProcedure, ctx).Ok? ==> Guard(PrivateProcedure, ctx).Ok?
  {
  }
}
