/** Checkout (src/trpc/payment-router.ts): an order for the purchasable
    products among those asked for, and a hosted checkout session for it at
    the payment processor, which is the parameter `checkout`; and the poll
    of an order's payment state. `serverUrlEnv` is the variable
    `NEXT_PUBLIC_SERVER_URL`. */
module PaymentRouter {
  import opened Wrappers
  import opened Db
  import Trpc

  /** One line of `line_items`; only the fixed extra line has
      `adjustable_quantity`, disabled. */
  datatype LineItem = LineItem(price: string, quantity: int, adjustableQuantity: Option<bool>)

  const ExtraPrice: string := "price_1OCeBwA19umTXGu8s4p2G3aX"

  const ExtraLine: LineItem := LineItem(ExtraPrice, 1, Some(false))

  /** What is sent to `stripe.checkout.sessions.create`. */
  datatype CheckoutRequest = CheckoutRequest(
    successUrl: string,
    cancelUrl: string,
    paymentMethodTypes: seq<string>,
    mode: string,
    metadata: map<string, string>,
    paymentIntentMetadata: map<string, string>,
    lineItems: seq<LineItem>)

  /** The processor's answer: a session, whose `url` may be `null`, or a
      failure. */
  datatype CheckoutReply = CheckoutFailed | SessionCreated(url: Option<string>)

  /** The products `findMany` returns: approved and asked for, in table
      order. */
  function Requested(products: seq<Product>, productIds: seq<string>): (r: seq<Product>)
    ensures forall p :: p in r <==> p in products && p.id in productIds && p.approvedForSale == Approved
  {
    if products == [] then []
    else if products[0].id in productIds && products[0].approvedForSale == Approved then
      [products[0]] + Requested(products[1..], productIds)
    else Requested(products[1..], productIds)
  }

  /** `filter((product) => Boolean(product.priceId))`. */
  function WithPrice(products: seq<Product>): (r: seq<Product>)
    ensures forall k :: 0 <= k < |r| ==> Present(r[k].priceId)
    ensures forall p :: p in r <==> p in products && Present(p.priceId)
  {
    if products == [] then []
    else if Present(products[0].priceId) then [products[0]] + WithPrice(products[1..])
    else WithPrice(products[1..])
  }

  /** The products an order is made for. */
  function Survivors(products: seq<Product>, productIds: seq<string>): (r: seq<Product>)
    ensures forall k :: 0 <= k < |r| ==> Present(r[k].priceId)
    ensures forall p :: p in r <==>
      p in products && p.id in productIds && p.approvedForSale == Approved && Present(p.priceId)
  {
    WithPrice(Requested(products, productIds))
  }

  /** One item per product, with the product's price at this moment. */
  function ItemsOf(products: seq<Product>): (r: seq<OrderItem>)
    ensures |r| == |products|
    ensures forall k :: 0 <= k < |products| ==> r[k] == OrderItem(products[k].id, products[k].price)
  {
    if products == [] then [] else [OrderItem(products[0].id, products[0].price)] + ItemsOf(products[1..])
  }

  /** A line of quantity 1 per product, then the fixed extra line. */
  function LineItemsOf(survivors: seq<Product>): (r: seq<LineItem>)
    requires forall k :: 0 <= k < |survivors| ==> survivors[k].priceId.Some?
    ensures |r| == |survivors| + 1
    ensures forall k :: 0 <= k < |survivors| ==> r[k] == LineItem(survivors[k].priceId.value, 1, None)
    ensures r[|survivors|] == ExtraLine
  {
    if survivors == [] then [ExtraLine]
    else [LineItem(survivors[0].priceId.value, 1, None)] + LineItemsOf(survivors[1..])
  }

  /** A template literal shows an unset variable as `undefined`. */
  function EnvText(v: Option<string>): string {
    if v.Some? then v.value else "undefined"
  }

  function OrderMetadata(userId: string, orderId: string): map<string, string> {
    map["userId" := userId, "orderId" := orderId]
  }

  function SessionRequestFor(serverUrlEnv: Option<string>, userId: string, orderId: string, lineItems: seq<LineItem>)
    : CheckoutRequest
  {
    CheckoutRequest(
      EnvText(serverUrlEnv) + "/thank-you?orderId=" + orderId,
      EnvText(serverUrlEnv) + "/cart",
      ["card", "paypal"],
      "payment",
      OrderMetadata(userId, orderId),
      OrderMetadata(userId, orderId),
      lineItems)
  }

  /** What `createSession` does: its result (the session's url, or `None`),
      the order table afterwards and the request sent, if any. */
  datatype SessionEffect = SessionEffect(result: Result<Option<string>, Trpc.TrpcError>, orders: seq<Order>,
                                         request: Option<CheckoutRequest>)

  /** `createSession`; `freshOrderId` is the id the database gives the new
      order. */
  function CreateSession(ctx: Trpc.Context, products: seq<Product>, orders: seq<Order>, productIds: seq<string>,
                         freshOrderId: string, serverUrlEnv: Option<string>,
                         checkout: CheckoutRequest -> CheckoutReply): SessionEffect
  {
    match Trpc.Guard(Trpc.PrivateProcedure, ctx)
    case Err(e) => SessionEffect(Err(e), orders, None)
    case Ok(c) =>
      if productIds == [] then SessionEffect(Err(Trpc.TrpcError(Trpc.BadRequest, None)), orders, None)
      else
        var survivors := Survivors(products, productIds);
        if survivors == [] then SessionEffect(Err(Trpc.TrpcError(Trpc.BadRequest, None)), orders, None)
        else
          var userId := c.user.value.id;
          var order := Order(freshOrderId, userId, false, ItemsOf(survivors));
          var request := SessionRequestFor(serverUrlEnv, userId, freshOrderId, LineItemsOf(survivors));
          match checkout(request)
          case CheckoutFailed => SessionEffect(Ok(None), orders + [order], Some(request))
          case SessionCreated(url) => SessionEffect(Ok(url), orders + [order], Some(request))
  }

  /** With no purchasable product, or none asked for, nothing is created and
      nothing is sent. */
  lemma NothingToBuy(ctx: Trpc.Context, products: seq<Product>, orders: seq<Order>, productIds: seq<string>,
                     freshOrderId: string, serverUrlEnv: Option<string>, checkout: CheckoutRequest -> CheckoutReply)
    requires Trpc.Guard(Trpc.PrivateProcedure, ctx).Ok?
    requires productIds == [] || forall p :: p in products && p.id in productIds && p.approvedForSale == Approved ==> !Present(p.priceId)
    ensures CreateSession(ctx, products, orders, productIds, freshOrderId, serverUrlEnv, checkout)
         == SessionEffect(Err(Trpc.TrpcError(Trpc.BadRequest, None)), orders, None)
  {
  }

  /** When a session is asked for, the caller was signed in and some
      purchasable product was asked for; one unpaid order of the caller is
      appended, with one item per such product at its current price. The
      order stays whether or not the processor answers. */
  lemma SessionCreatesOrder(ctx: Trpc.Context, products: seq<Product>, orders: seq<Order>, productIds: seq<string>,
                            freshOrderId: string, serverUrlEnv: Option<string>, checkout: CheckoutRequest -> CheckoutReply)
    requires CreateSession(ctx, products, orders, productIds, freshOrderId, serverUrlEnv, checkout).request.Some?
    ensures Trpc.Guard(Trpc.PrivateProcedure, ctx).Ok? && Survivors(products, productIds) != []
    ensures var e := CreateSession(ctx, products, orders, productIds, freshOrderId, serverUrlEnv, checkout);
      && e.result.Ok?
      && e.orders == orders + [Order(freshOrderId, ctx.auth.user.value.id, false, ItemsOf(Survivors(products, productIds)))]
  {
  }

  /** The converse: a signed-in caller who asks for some purchasable
      product gets the new unpaid order and a checkout request, whatever the
      processor answers. */
  lemma SessionWhenPurchasable(ctx: Trpc.Context, products: seq<Product>, orders: seq<Order>, productIds: seq<string>,
                               freshOrderId: string, serverUrlEnv: Option<string>, checkout: CheckoutRequest -> CheckoutReply)
    requires Trpc.Guard(Trpc.PrivateProcedure, ctx).Ok? && Survivors(products, productIds) != []
    ensures var e := CreateSession(ctx, products, orders, productIds, freshOrderId, serverUrlEnv, checkout);
      && e.request.Some?
      && e.result.Ok?
      && e.orders == orders + [Order(freshOrderId, ctx.auth.user.value.id, false, ItemsOf(Survivors(products, productIds)))]
  {
    var survivors := Survivors(products, productIds);
    assert survivors[0] in survivors;
  }

  /** The request lists the purchasable products' prices, quantity 1, then
      the extra line, and carries the new order's ids in both metadata; its
      answer decides the url returned, `None` on a failure. */
  lemma SessionRequestShape(ctx: Trpc.Context, products: seq<Product>, orders: seq<Order>, productIds: seq<string>,
                            freshOrderId: string, serverUrlEnv: Option<string>, checkout: CheckoutRequest -> CheckoutReply)
    requires CreateSession(ctx, products, orders, productIds, freshOrderId, serverUrlEnv, checkout).request.Some?
    ensures var e := CreateSession(ctx, products, orders, productIds, freshOrderId, serverUrlEnv, checkout);
      var request := e.request.value;
      var survivors := Survivors(products, productIds);
      && request.lineItems == LineItemsOf(survivors)
      && |request.lineItems| == |survivors| + 1
      && request.metadata == request.paymentIntentMetadata
      && request.metadata == map["userId" := ctx.auth.user.value.id, "orderId" := freshOrderId]
      && request.successUrl == EnvText(serverUrlEnv) + "/thank-you?orderId=" + freshOrderId
      && (checkout(request).CheckoutFailed? ==> e.result == Ok(None))
      && (checkout(request).SessionCreated? ==> e.result == Ok(checkout(request).url))
  {
  }

  /** The items of the new order: each a product that was asked for and is
      approved, at the price it had. */
  lemma OrderItemsSnapshot(products: seq<Product>, productIds: seq<string>, k: nat)
    requires k < |Survivors(products, productIds)|
    ensures var survivors := Survivors(products, productIds);
      && ItemsOf(survivors)[k] == OrderItem(survivors[k].id, survivors[k].price)
      && survivors[k] in products && survivors[k].id in productIds && survivors[k].approvedForSale == Approved
      && Present(survivors[k].priceId)
  {
    var survivors := Survivors(products, productIds);
    assert survivors[k] in survivors;
  }

  /** Orders a checkout has already created are left as they were. */
  lemma SessionKeepsOrders(ctx: Trpc.Context, products: seq<Product>, orders: seq<Order>, productIds: seq<string>,
                           freshOrderId: string, serverUrlEnv: Option<string>, checkout: CheckoutRequest -> CheckoutReply)
    ensures var e := CreateSession(ctx, products, orders, productIds, freshOrderId, serverUrlEnv, checkout);
      |orders| <= |e.orders| && e.orders[..|orders|] == orders
      && (e.result.Err? ==> e.orders == orders)
  {
  }

  /** `pollOrderStatus`: whether the order is paid. The caller is not
      compared with the order's owner. */
  function PollOrderStatus(ctx: Trpc.Context, orders: seq<Order>, orderId: string): (r: Result<bool, Trpc.TrpcError>)
    ensures Trpc.Guard(Trpc.PrivateProcedure, ctx).Ok? ==>
      (r.Err? <==> Find(orders, OrderKey, orderId).None?)
      && (r.Err? ==> r.error == Trpc.TrpcError(Trpc.NotFound, None))
      && (r.Ok? ==> (r.value <==> exists k :: 0 <= k < |orders| && orders[k].id == orderId && orders[k].isPaid
                                    && forall j :: 0 <= j < k ==> orders[j].id != orderId))
  {
    match Trpc.Guard(Trpc.PrivateProcedure, ctx)
    case Err(e) => Err(e)
    case Ok(_) =>
      match Find(orders, OrderKey, orderId)
      case None => Err(Trpc.TrpcError(Trpc.NotFound, None))
      case Some(i) => Ok(orders[i].isPaid)
  }

  /** Any two signed-in callers get the same answer about an order. */
  lemma PollIgnoresCaller(a: Trpc.Context, b: Trpc.Context, orders: seq<Order>, orderId: string)
    requires Trpc.Guard(Trpc.PrivateProcedure, a).Ok? && Trpc.Guard(Trpc.PrivateProcedure, b).Ok?
    ensures PollOrderStatus(a, orders, orderId) == PollOrderStatus(b, orders, orderId)
  {
  }

  /** The `forEach`/`push` that builds `line_items`, then the final push. */
  method BuildLineItems(survivors: seq<Product>) returns (lineItems: seq<LineItem>)
    requires forall k :: 0 <= k < |survivors| ==> survivors[k].priceId.Some?
    ensures |lineItems| == |survivors| + 1 && lineItems[|survivors|] == ExtraLine
    ensures forall k :: 0 <= k < |survivors| ==> lineItems[k] == LineItem(survivors[k].priceId.value, 1, None)
    ensures lineItems == LineItemsOf(survivors)
  {
    lineItems := [];
    var k := 0;
    while k < |survivors|
      invariant 0 <= k <= |survivors|
      invariant |lineItems| == k
      invariant forall j :: 0 <= j < k ==> lineItems[j] == LineItem(survivors[j].priceId.value, 1, None)
    {
      lineItems := lineItems + [LineItem(survivors[k].priceId.value, 1, None)];
      k := k + 1;
    }
    lineItems := lineItems + [ExtraLine];
    assert forall j :: 0 <= j < |lineItems| ==> lineItems[j] == LineItemsOf(survivors)[j];
  }

  /** `createSession` on the database. */
  method CreateSessionHandler(db: Store, ctx: Trpc.Context, productIds: seq<string>, freshOrderId: string,
                              serverUrlEnv: Option<string>, checkout: CheckoutRequest -> CheckoutReply)
    returns (result: Result<Option<string>, Trpc.TrpcError>, request: Option<CheckoutRequest>)
    modifies db
    ensures SessionEffect(result, db.orders, request)
         == CreateSession(ctx, old(db.products), old(db.orders), productIds, freshOrderId, serverUrlEnv, checkout)
    ensures db.users == old(db.users) && db.products == old(db.products) && db.productFiles == old(db.productFiles)
    ensures db.media == old(db.media) && db.productImages == old(db.productImages)
  {
    var guard := Trpc.Guard(Trpc.PrivateProcedure, ctx);
    if guard.Err? {
      return Err(guard.error), None;
    }
    var user := guard.value.user.value;
    if |productIds| == 0 {
      return Err(Trpc.TrpcError(Trpc.BadRequest, None)), None;
    }
    var filteredProducts := Survivors(db.products, productIds);
    if |filteredProducts| == 0 {
      return Err(Trpc.TrpcError(Trpc.BadRequest, None)), None;
    }
    var order := Order(freshOrderId, user.id, false, ItemsOf(filteredProducts));
    db.orders := db.orders + [order];

    var lineItems := BuildLineItems(filteredProducts);
    var sessionRequest := SessionRequestFor(serverUrlEnv, user.id, order.id, lineItems);
    var reply := checkout(sessionRequest);
    if reply.CheckoutFailed? {
      return Ok(None), Some(sessionRequest);
    }
    return Ok(reply.url), Some(sessionRequest);
  }
}
