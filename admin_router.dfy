/** The admin procedures (src/trpc/admin-router.ts): the queue of products
    awaiting review, and approving or denying one. Approval creates the
    product and its price in the payment processor's catalogue when they
    are missing; the processor is the parameter `remote`, which answers each
    call with a fresh id or a failure. */
module AdminRouter {
  import opened Wrappers
  import opened Db
  import Sorting
  import Trpc
  import PV = ProductValidator

  // The review queue.

  /** A row of `listPendingProducts`: some product fields and the seller's
      e-mail (`None` only when the seller's row is missing, which the foreign
      key rules out). */
  datatype PendingRow = PendingRow(id: string, name: string, price: real, category: string, createdAt: int,
                                   sellerEmail: Option<string>)

  function CreatedAt(p: Product): int { p.createdAt }

  function PendingOf(products: seq<Product>): (r: seq<Product>)
    ensures forall k :: 0 <= k < |r| ==> r[k].approvedForSale == Pending
    ensures forall p :: p in r <==> p in products && p.approvedForSale == Pending
  {
    if products == [] then []
    else if products[0].approvedForSale == Pending then [products[0]] + PendingOf(products[1..])
    else PendingOf(products[1..])
  }

  /** Each pending product is kept as often as the table holds it. */
  lemma {:induction false} PendingMultiplicity(products: seq<Product>, p: Product)
    ensures multiset(PendingOf(products))[p] == if p.approvedForSale == Pending then multiset(products)[p] else 0
  {
    if products != [] {
      PendingMultiplicity(products[1..], p);
      assert products == [products[0]] + products[1..];
    }
  }

  function RowOf(users: seq<User>, p: Product): PendingRow {
    var seller := match Find(users, UserId, p.userId)
      case None => None
      case Some(i) => Some(users[i].email);
    PendingRow(p.id, p.name, p.price, p.category, p.createdAt, seller)
  }

  function RowsOf(users: seq<User>, ps: seq<Product>): (r: seq<PendingRow>)
    ensures |r| == |ps|
    ensures forall k :: 0 <= k < |ps| ==> r[k] == RowOf(users, ps[k])
  {
    if ps == [] then [] else [RowOf(users, ps[0])] + RowsOf(users, ps[1..])
  }

  /** `listPendingProducts`: the `PENDING` products, oldest first. */
  function ListPendingProducts(ctx: Trpc.Context, products: seq<Product>, users: seq<User>)
    : Result<seq<PendingRow>, Trpc.TrpcError>
  {
    match Trpc.Guard(Trpc.AdminProcedure, ctx)
    case Err(e) => Err(e)
    case Ok(_) => Ok(RowsOf(users, Sorting.SortBy(PendingOf(products), CreatedAt)))
  }

  /** The queue holds one row for each `PENDING` product and no other, in
      ascending creation time. */
  lemma PendingQueue(ctx: Trpc.Context, products: seq<Product>, users: seq<User>)
    requires Trpc.Guard(Trpc.AdminProcedure, ctx).Ok?
    ensures var rows := ListPendingProducts(ctx, products, users);
      && rows.Ok?
      && |rows.value| == |PendingOf(products)|
      && (forall i, j :: 0 <= i < j < |rows.value| ==> rows.value[i].createdAt <= rows.value[j].createdAt)
      && (forall p :: p in products && p.approvedForSale == Pending ==> RowOf(users, p) in rows.value)
      && (forall k :: 0 <= k < |rows.value| ==>
            exists p :: p in products && p.approvedForSale == Pending && rows.value[k] == RowOf(users, p))
  {
    var pending := PendingOf(products);
    var sorted := Sorting.SortBy(pending, CreatedAt);
    var rows := RowsOf(users, sorted);
    assert ListPendingProducts(ctx, products, users) == Ok(rows);
    assert |rows| == |sorted| == |pending|;
    forall i, j | 0 <= i < j < |rows| ensures rows[i].createdAt <= rows[j].createdAt {
      assert CreatedAt(sorted[i]) <= CreatedAt(sorted[j]);
    }
    forall p | p in products && p.approvedForSale == Pending ensures RowOf(users, p) in rows {
      Sorting.SameElements(sorted, pending, p);
      var k :| 0 <= k < |sorted| && sorted[k] == p;
      assert rows[k] == RowOf(users, p);
    }
    forall k | 0 <= k < |rows|
      ensures exists p :: p in products && p.approvedForSale == Pending && rows[k] == RowOf(users, p)
    {
      Sorting.SameElements(sorted, pending, sorted[k]);
    }
  }

  // Approval.

  /** A call to the payment processor's catalogue. */
  datatype RemoteCall =
    | CreateRemoteProduct(name: string, description: Option<string>, productId: string)
    | CreateRemotePrice(product: string, unitAmount: int, currency: string)

  datatype RemoteReply = Failed | Created(id: string)

  /** What an admin mutation does: its result, the product table
      afterwards, and the calls it made to the processor, in order. */
  datatype AdminEffect = AdminEffect(result: Result<string, Trpc.TrpcError>, products: seq<Product>, calls: seq<RemoteCall>)

  const AlreadyApproved: string := "already-approved"
  const ApprovedStatus: string := "approved"
  const DeniedStatus: string := "denied"

  const LowPrice: Trpc.TrpcError := Trpc.TrpcError(Trpc.BadRequest, Some("Price must be at least $1."))
  const RemoteFailed: Trpc.TrpcError := Trpc.TrpcError(Trpc.InternalServerError, Some("Stripe approval failed."))

  /** `Math.round(price * 100)`: the nearest whole cent, halves rounded up. */
  function UnitAmount(price: real): (cents: int)
    ensures cents as real <= price * 100.0 + 0.5 < cents as real + 1.0
  {
    (price * 100.0 + 0.5).Floor
  }

  /** The processor's product id and price id, or a failure, and the calls
      that produced them: each is created only when the product lacks it. */
  datatype RemoteIds = RemoteIds(ids: Option<(string, string)>, calls: seq<RemoteCall>)

  function EnsureRemote(p: Product, unitAmount: int, remote: RemoteCall -> RemoteReply): RemoteIds {
    var productCall := CreateRemoteProduct(p.name, p.description, p.id);
    var productStep: (Option<string>, seq<RemoteCall>) :=
      if Present(p.stripeId) then (p.stripeId, [])
      else match remote(productCall)
        case Failed => (None, [productCall])
        case Created(id) => (Some(id), [productCall]);
    if productStep.0.None? then RemoteIds(None, productStep.1)
    else
      var stripeProductId := productStep.0.value;
      if Present(p.priceId) then RemoteIds(Some((stripeProductId, p.priceId.value)), productStep.1)
      else
        var priceCall := CreateRemotePrice(stripeProductId, unitAmount, "usd");
        match remote(priceCall)
        case Failed => RemoteIds(None, productStep.1 + [priceCall])
        case Created(id) => RemoteIds(Some((stripeProductId, id)), productStep.1 + [priceCall])
  }

  /** `approveProduct`, step by step: the guard, the id's schema, the
      lookup, the already-approved answer, the price check, the remote ids,
      and one write. */
  function Approve(ctx: Trpc.Context, products: seq<Product>, productId: string,
                   remote: RemoteCall -> RemoteReply): AdminEffect {
    if Trpc.Guard(Trpc.AdminProcedure, ctx).Err? then AdminEffect(Err(Trpc.Guard(Trpc.AdminProcedure, ctx).error), products, [])
    else if !PV.IsUuid(productId) then AdminEffect(Err(Trpc.TrpcError(Trpc.BadRequest, None)), products, [])
    else match Find(products, ProductKey, productId)
      case None => AdminEffect(Err(Trpc.TrpcError(Trpc.NotFound, None)), products, [])
      case Some(i) =>
        var p := products[i];
        if p.approvedForSale == Approved && Present(p.priceId) && Present(p.stripeId) then
          AdminEffect(Ok(AlreadyApproved), products, [])
        else if UnitAmount(p.price) < 100 then AdminEffect(Err(LowPrice), products, [])
        else
          var remoteIds := EnsureRemote(p, UnitAmount(p.price), remote);
          match remoteIds.ids
          case None => AdminEffect(Err(RemoteFailed), products, remoteIds.calls)
          case Some((stripeProductId, stripePriceId)) =>
            var approved := p.(approvedForSale := Approved, stripeId := Some(stripeProductId), priceId := Some(stripePriceId));
            AdminEffect(Ok(ApprovedStatus), products[i := approved], remoteIds.calls)
  }

  /** A caller the admin guard admits, asking about a well-formed id. */
  predicate Admitted(ctx: Trpc.Context, productId: string) {
    Trpc.Guard(Trpc.AdminProcedure, ctx).Ok? && PV.IsUuid(productId)
  }

  /** Every failure leaves the product table as it was: on a failed remote
      call, ids created before it are not saved. */
  lemma ApproveFailureWritesNothing(ctx: Trpc.Context, products: seq<Product>, productId: string,
                                    remote: RemoteCall -> RemoteReply)
    ensures var e := Approve(ctx, products, productId, remote);
      e.result.Err? || e.result == Ok(AlreadyApproved) ==> e.products == products
  {
  }

  /** An unknown product is `NOT_FOUND`, with no remote call. */
  lemma ApproveUnknown(ctx: Trpc.Context, products: seq<Product>, productId: string, remote: RemoteCall -> RemoteReply)
    requires Admitted(ctx, productId) && Find(products, ProductKey, productId).None?
    ensures Approve(ctx, products, productId, remote) == AdminEffect(Err(Trpc.TrpcError(Trpc.NotFound, None)), products, [])
  {
  }

  /** An approved product with both ids answers `already-approved` before
      its price is looked at, and calls nothing. */
  lemma ApproveAlreadyApproved(ctx: Trpc.Context, products: seq<Product>, productId: string, remote: RemoteCall -> RemoteReply)
    requires Admitted(ctx, productId)
    requires Find(products, ProductKey, productId).Some?
    requires var p := products[Find(products, ProductKey, productId).value];
      p.approvedForSale == Approved && Present(p.priceId) && Present(p.stripeId)
    ensures Approve(ctx, products, productId, remote) == AdminEffect(Ok(AlreadyApproved), products, [])
  {
  }

  /** A price below one dollar, in whole cents, is refused before any remote
      call. */
  lemma ApproveLowPrice(ctx: Trpc.Context, products: seq<Product>, productId: string, remote: RemoteCall -> RemoteReply)
    requires Admitted(ctx, productId)
    requires Find(products, ProductKey, productId).Some?
    requires var p := products[Find(products, ProductKey, productId).value];
      !(p.approvedForSale == Approved && Present(p.priceId) && Present(p.stripeId)) && p.price < 0.995
    ensures Approve(ctx, products, productId, remote) == AdminEffect(Err(LowPrice), products, [])
  {
  }

  /** The remote calls: a product is created exactly when the row has no
      processor product id, and a price, for the rounded amount in cents,
      exactly when it has no price id and the product step succeeded. */
  lemma {:induction false} EnsureRemoteCalls(p: Product, unitAmount: int, remote: RemoteCall -> RemoteReply)
    ensures var r := EnsureRemote(p, unitAmount, remote);
      && (CreateRemoteProduct(p.name, p.description, p.id) in r.calls <==> !Present(p.stripeId))
      && (forall c :: c in r.calls && c.CreateRemotePrice? ==>
            !Present(p.priceId) && c.unitAmount == unitAmount && c.currency == "usd")
      && |r.calls| <= 2
      && (r.ids.Some? ==>
            && (Present(p.stripeId) ==> r.ids.value.0 == p.stripeId.value)
            && (Present(p.priceId) ==> r.ids.value.1 == p.priceId.value)
            && (!Present(p.priceId) ==>
                  (r.calls[|r.calls| - 1] == CreateRemotePrice(r.ids.value.0, unitAmount, "usd")
                   && remote(r.calls[|r.calls| - 1]) == Created(r.ids.value.1))))
  {
    var r := EnsureRemote(p, unitAmount, remote);
    if Present(p.stripeId) {
      assert forall c :: c in r.calls ==> c.CreateRemotePrice?;
    }
  }

  /** A successful approval writes the one product row: `APPROVED` and both
      processor ids, the rest of the row and of the table unchanged. */
  lemma ApproveSuccess(ctx: Trpc.Context, products: seq<Product>, productId: string, remote: RemoteCall -> RemoteReply)
    requires Approve(ctx, products, productId, remote).result == Ok(ApprovedStatus)
    ensures var e := Approve(ctx, products, productId, remote);
      var i := Find(products, ProductKey, productId);
      && i.Some?
      && |e.products| == |products|
      && (forall k :: 0 <= k < |products| && k != i.value ==> e.products[k] == products[k])
      && e.products[i.value].approvedForSale == Approved
      && e.products[i.value].stripeId.Some? && e.products[i.value].priceId.Some?
      && e.products[i.value] == products[i.value].(approvedForSale := Approved,
           stripeId := e.products[i.value].stripeId, priceId := e.products[i.value].priceId)
  {
  }

  /** Past the checks, the remote step decides: a failed call is
      `INTERNAL_SERVER_ERROR` "Stripe approval failed.", and both ids in
      hand answer `approved`; the calls made are those of the remote step. */
  lemma ApproveOutcome(ctx: Trpc.Context, products: seq<Product>, productId: string, remote: RemoteCall -> RemoteReply)
    requires Admitted(ctx, productId)
    requires Find(products, ProductKey, productId).Some?
    requires var p := products[Find(products, ProductKey, productId).value];
      !(p.approvedForSale == Approved && Present(p.priceId) && Present(p.stripeId)) && UnitAmount(p.price) >= 100
    ensures var p := products[Find(products, ProductKey, productId).value];
      var remoteIds := EnsureRemote(p, UnitAmount(p.price), remote);
      var e := Approve(ctx, products, productId, remote);
      && (remoteIds.ids.None? <==> e.result == Err(RemoteFailed))
      && (remoteIds.ids.Some? <==> e.result == Ok(ApprovedStatus))
      && e.calls == remoteIds.calls
  {
  }

  /** Once approved with ids the processor gave (never empty ones), a
      second approval answers `already-approved` and calls nothing. */
  lemma ApproveTwice(ctx: Trpc.Context, products: seq<Product>, productId: string, remote: RemoteCall -> RemoteReply)
    requires forall c :: remote(c).Created? ==> remote(c).id != ""
    requires Approve(ctx, products, productId, remote).result == Ok(ApprovedStatus)
    ensures var once := Approve(ctx, products, productId, remote);
      Approve(ctx, once.products, productId, remote) == AdminEffect(Ok(AlreadyApproved), once.products, [])
  {
    var once := Approve(ctx, products, productId, remote);
    var i := Find(products, ProductKey, productId).value;
    var p := products[i];
    EnsureRemoteCalls(p, UnitAmount(p.price), remote);
    var remoteIds := EnsureRemote(p, UnitAmount(p.price), remote);
    assert remoteIds.ids.value.0 != "";
    assert remoteIds.ids.value.1 != "";
    FindAfterUpdate(products, i, once.products[i]);
  }

  /** Rewriting a row without changing its id keeps every lookup by id. */
  lemma {:induction false} FindAfterUpdate(products: seq<Product>, i: nat, q: Product)
    requires i < |products| && q.id == products[i].id
    ensures forall k :: Find(products[i := q], ProductKey, k) == Find(products, ProductKey, k)
  {
    if products != [] {
      if i > 0 {
        FindAfterUpdate(products[1..], i - 1, q);
        assert products[i := q][1..] == products[1..][i - 1 := q];
      }
    }
  }

  /** Approval is not resumable: when the price call fails after the
      product call succeeded, nothing is saved, so approving again creates a
      second remote product. */
  lemma RetryCreatesAnotherProduct(ctx: Trpc.Context, products: seq<Product>, productId: string,
                                   remote: RemoteCall -> RemoteReply)
    requires Admitted(ctx, productId)
    requires Find(products, ProductKey, productId).Some?
    requires var p := products[Find(products, ProductKey, productId).value];
      && !Present(p.stripeId) && !Present(p.priceId) && UnitAmount(p.price) >= 100
      && remote(CreateRemoteProduct(p.name, p.description, p.id)).Created?
      && remote(CreateRemotePrice(remote(CreateRemoteProduct(p.name, p.description, p.id)).id, UnitAmount(p.price), "usd")) == Failed
    ensures var first := Approve(ctx, products, productId, remote);
      var second := Approve(ctx, first.products, productId, remote);
      var p := products[Find(products, ProductKey, productId).value];
      && first.result == Err(RemoteFailed) && second.result == Err(RemoteFailed)
      && first.calls[0] == CreateRemoteProduct(p.name, p.description, p.id)
      && second.calls[0] == CreateRemoteProduct(p.name, p.description, p.id)
  {
  }

  // Denial.

  /** `denyProduct`. */
  function Deny(ctx: Trpc.Context, products: seq<Product>, productId: string): AdminEffect {
    if Trpc.Guard(Trpc.AdminProcedure, ctx).Err? then AdminEffect(Err(Trpc.Guard(Trpc.AdminProcedure, ctx).error), products, [])
    else if !PV.IsUuid(productId) then AdminEffect(Err(Trpc.TrpcError(Trpc.BadRequest, None)), products, [])
    else match Find(products, ProductKey, productId)
      case None => AdminEffect(Err(Trpc.TrpcError(Trpc.NotFound, None)), products, [])
      case Some(i) => AdminEffect(Ok(DeniedStatus), products[i := products[i].(approvedForSale := Denied)], [])
  }

  /** Denial sets `DENIED` from any state, with no remote call, and keeps
      the processor ids and every other field and row. */
  lemma DenyFromAnyState(ctx: Trpc.Context, products: seq<Product>, productId: string)
    requires Admitted(ctx, productId)
    ensures var e := Deny(ctx, products, productId);
      && e.calls == []
      && (Find(products, ProductKey, productId).None? <==> e.result == Err(Trpc.TrpcError(Trpc.NotFound, None)))
      && (e.result.Err? ==> e.products == products)
      && (e.result.Ok? ==>
            var i := Find(products, ProductKey, productId).value;
            && e.result.value == DeniedStatus
            && |e.products| == |products|
            && (forall k :: 0 <= k < |products| && k != i ==> e.products[k] == products[k])
            && e.products[i].approvedForSale == Denied
            && e.products[i].stripeId == products[i].stripeId && e.products[i].priceId == products[i].priceId
            && e.products[i].(approvedForSale := products[i].approvedForSale) == products[i])
  {
  }

  // The procedures on the database.

  /** `approveProduct` on the database; `calls` are the processor calls in
      the order made. */
  method ApproveProduct(db: Store, ctx: Trpc.Context, productId: string, remote: RemoteCall -> RemoteReply)
    returns (result: Result<string, Trpc.TrpcError>, calls: seq<RemoteCall>)
    modifies db
    ensures AdminEffect(result, db.products, calls) == Approve(ctx, old(db.products), productId, remote)
    ensures db.users == old(db.users) && db.productFiles == old(db.productFiles) && db.orders == old(db.orders)
    ensures db.media == old(db.media) && db.productImages == old(db.productImages)
  {
    calls := [];
    var guard := Trpc.Guard(Trpc.AdminProcedure, ctx);
    if guard.Err? {
      return Err(guard.error), calls;
    }
    if !PV.IsUuid(productId) {
      return Err(Trpc.TrpcError(Trpc.BadRequest, None)), calls;
    }
    var found := Find(db.products, ProductKey, productId);
    if found.None? {
      return Err(Trpc.TrpcError(Trpc.NotFound, None)), calls;
    }
    var i := found.value;
    var product := db.products[i];
    if product.approvedForSale == Approved && Present(product.priceId) && Present(product.stripeId) {
      return Ok(AlreadyApproved), calls;
    }
    var unitAmount := UnitAmount(product.price);
    if unitAmount < 100 {
      return Err(LowPrice), calls;
    }

    var stripeProductId := product.stripeId;
    var stripePriceId := product.priceId;
    if !Present(stripeProductId) {
      var call := CreateRemoteProduct(product.name, product.description, product.id);
      calls := calls + [call];
      var reply := remote(call);
      if reply.Failed? {
        return Err(RemoteFailed), calls;
      }
      stripeProductId := Some(reply.id);
    }
    if !Present(stripePriceId) {
      var call := CreateRemotePrice(stripeProductId.value, unitAmount, "usd");
      calls := calls + [call];
      var reply := remote(call);
      if reply.Failed? {
        return Err(RemoteFailed), calls;
      }
      stripePriceId := Some(reply.id);
    }

    db.products := db.products[i := product.(approvedForSale := Approved, stripeId := stripeProductId, priceId := stripePriceId)];
    return Ok(ApprovedStatus), calls;
  }

  /** `denyProduct` on the database. */
  method DenyProduct(db: Store, ctx: Trpc.Context, productId: string) returns (result: Result<string, Trpc.TrpcError>)
    modifies db
    ensures AdminEffect(result, db.products, []) == Deny(ctx, old(db.products), productId)
    ensures db.users == old(db.users) && db.productFiles == old(db.productFiles) && db.orders == old(db.orders)
    ensures db.media == old(db.media) && db.productImages == old(db.productImages)
  {
    var guard := Trpc.Guard(Trpc.AdminProcedure, ctx);
    if guard.Err? {
      return Err(guard.error);
    }
    if !PV.IsUuid(productId) {
      return Err(Trpc.TrpcError(Trpc.BadRequest, None));
    }
    var found := Find(db.products, ProductKey, productId);
    if found.None? {
      return Err(Trpc.TrpcError(Trpc.NotFound, None));
    }
    var i := found.value;
    db.products := db.products[i := db.products[i].(approvedForSale := Denied)];
    return Ok(DeniedStatus);
  }
}
