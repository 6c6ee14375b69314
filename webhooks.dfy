/** The payment processor's webhook (src/webhooks.ts): a state machine on
    the `isPaid` flag of one order per event. A completed (or asynchronously
    succeeded) checkout marks its order paid and sends one receipt; a failed
    asynchronous payment or a refunded charge marks it unpaid; every other
    event is acknowledged and ignored.

    Signature checking (`constructEvent`), the payment-intent lookup and the
    e-mail service are parameters: `construct` yields the event or the error
    message, `retrieve` the intent's metadata or `None` when the lookup
    throws, and `sendThrows` says whether rendering or sending the receipt
    throws. */
module Webhooks {
  import opened Wrappers
  import opened Db

  type Metadata = map<string, string>

  datatype OrderMetadata = OrderMetadata(userId: string, orderId: string)

  /** `charge.payment_intent`: absent, an id, or the expanded object. */
  datatype IntentRef = NoIntent | IntentId(id: string) | IntentObject

  datatype Charge = Charge(metadata: Option<Metadata>, paymentIntent: IntentRef)

  datatype Event =
    | CheckoutCompleted(sessionMetadata: Option<Metadata>)
    | AsyncPaymentSucceeded(sessionMetadata: Option<Metadata>)
    | AsyncPaymentFailed(sessionMetadata: Option<Metadata>)
    | ChargeRefunded(charge: Charge)
    | OtherEvent(eventType: string)

  datatype ReplyBody =
    | Empty
    | Message(text: string)
    /** `json({ error })` with an error message. */
    | JsonError(error: string)
    /** `json({ data })`: what the e-mail service answered. */
    | SendResult
    /** `json({ error })`: what rendering or sending threw. */
    | SendFailure

  datatype Reply =
    | Reply(status: int, body: ReplyBody)
    /** The payment-intent lookup threw: the handler's promise rejects and
        no reply is written. */
    | Fault

  /** The receipt e-mail: recipient, order, and a line per order item with
      the price copied into the order at checkout. */
  datatype Receipt = Receipt(to: string, orderId: string, lines: seq<OrderItem>)

  /** What one delivery of an event does: the reply, the new order table and
      the receipt attempted, if any. */
  datatype Effect = Effect(reply: Reply, orders: seq<Order>, receipt: Option<Receipt>)

  /** `readOrderMetadata`: both ids, unchanged, when both are non-empty. */
  function ReadOrderMetadata(m: Option<Metadata>): (r: Option<OrderMetadata>)
    ensures r.Some? <==> m.Some? && "userId" in m.value && "orderId" in m.value
                         && m.value["userId"] != "" && m.value["orderId"] != ""
    ensures r.Some? ==> r.value == OrderMetadata(m.value["userId"], m.value["orderId"])
  {
    if m.None? then None
    else if "userId" !in m.value || "orderId" !in m.value then None
    else if m.value["userId"] == "" || m.value["orderId"] == "" then None
    else Some(OrderMetadata(m.value["userId"], m.value["orderId"]))
  }

  /** `loadOrderWithUser`: the order with the metadata's id, provided it
      belongs to the metadata's user, together with that user. */
  function LoadOrderWithUser(orders: seq<Order>, users: seq<User>, meta: OrderMetadata): (r: Option<(nat, User)>)
    ensures r.Some? ==> r.value.0 < |orders| && orders[r.value.0].id == meta.orderId
                        && orders[r.value.0].userId == meta.userId && r.value.1.id == meta.userId
    ensures Unique(orders, OrderKey) && Find(users, UserId, meta.userId).Some? ==>
      forall k :: 0 <= k < |orders| && orders[k].id == meta.orderId && orders[k].userId == meta.userId ==>
        r.Some? && r.value.0 == k
  {
    match Find(orders, OrderKey, meta.orderId)
    case None => None
    case Some(i) =>
      if orders[i].userId != meta.userId then None
      else
        match Find(users, UserId, orders[i].userId)
        case None => None
        case Some(j) => Some((i, users[j]))
  }

  /** The order table after `setOrderPaidStatus(orderId, isPaid)`: the row
      with that id gets the flag, every other row is kept. */
  function WithPaidStatus(orders: seq<Order>, orderId: string, isPaid: bool): (r: seq<Order>)
    ensures |r| == |orders|
    ensures forall k :: 0 <= k < |orders| ==>
      r[k] == if orders[k].id == orderId then orders[k].(isPaid := isPaid) else orders[k]
  {
    if orders == [] then []
    else
      [if orders[0].id == orderId then orders[0].(isPaid := isPaid) else orders[0]]
      + WithPaidStatus(orders[1..], orderId, isPaid)
  }

  datatype Resolution = Resolved(meta: Option<OrderMetadata>) | RetrieveFailed

  /** `resolveMetadataFromCharge`: the charge's own metadata first, then the
      metadata of the payment intent when the charge names one by id. */
  function ResolveMetadataFromCharge(charge: Charge, retrieve: string -> Option<Metadata>): (r: Resolution)
    ensures ReadOrderMetadata(charge.metadata).Some? ==> r == Resolved(ReadOrderMetadata(charge.metadata))
    ensures ReadOrderMetadata(charge.metadata).None? && charge.paymentIntent.IntentId? && charge.paymentIntent.id != "" ==>
      r == (match retrieve(charge.paymentIntent.id)
            case None => RetrieveFailed
            case Some(m) => Resolved(ReadOrderMetadata(Some(m))))
    ensures ReadOrderMetadata(charge.metadata).None? && !(charge.paymentIntent.IntentId? && charge.paymentIntent.id != "") ==>
      r == Resolved(None)
  {
    var direct := ReadOrderMetadata(charge.metadata);
    if direct.Some? then Resolved(direct)
    else if !charge.paymentIntent.IntentId? || charge.paymentIntent.id == "" then Resolved(None)
    else
      match retrieve(charge.paymentIntent.id)
      case None => RetrieveFailed
      case Some(m) => Resolved(ReadOrderMetadata(Some(m)))
  }

  /** A completed or asynchronously succeeded checkout. */
  function SettleCheckout(orders: seq<Order>, users: seq<User>, m: Option<Metadata>, sendThrows: bool): Effect {
    match ReadOrderMetadata(m)
    case None => Effect(Reply(400, Message("Webhook Error: Missing order metadata on session")), orders, None)
    case Some(meta) =>
      match LoadOrderWithUser(orders, users, meta)
      case None => Effect(Reply(404, JsonError("No such user exists.")), orders, None)
      case Some((i, user)) =>
        if orders[i].isPaid then Effect(Reply(200, Empty), orders, None)
        else
          Effect(if sendThrows then Reply(500, SendFailure) else Reply(200, SendResult),
                 WithPaidStatus(orders, meta.orderId, true),
                 Some(Receipt(user.email, meta.orderId, orders[i].items)))
  }

  /** A failed payment or a refund, once its metadata is known. */
  function Revoke(orders: seq<Order>, users: seq<User>, meta: Option<OrderMetadata>): Effect {
    if meta.Some? && LoadOrderWithUser(orders, users, meta.value).Some? then
      Effect(Reply(200, Empty), WithPaidStatus(orders, meta.value.orderId, false), None)
    else
      Effect(Reply(200, Empty), orders, None)
  }

  /** The dispatch on the event kind. */
  function Reconcile(orders: seq<Order>, users: seq<User>, event: Event,
                     retrieve: string -> Option<Metadata>, sendThrows: bool): Effect {
    match event
    case CheckoutCompleted(m) => SettleCheckout(orders, users, m, sendThrows)
    case AsyncPaymentSucceeded(m) => SettleCheckout(orders, users, m, sendThrows)
    case AsyncPaymentFailed(m) => Revoke(orders, users, ReadOrderMetadata(m))
    case ChargeRefunded(charge) =>
      (match ResolveMetadataFromCharge(charge, retrieve)
       case RetrieveFailed => Effect(Fault, orders, None)
       case Resolved(meta) => Revoke(orders, users, meta))
    case OtherEvent(_) => Effect(Reply(200, Empty), orders, None)
  }

  /** `x || ''` on an optional header or environment variable. */
  function OrEmpty(o: Option<string>): string {
    if o.Some? then o.value else ""
  }

  /** `stripeWebhookHandler` as a value: check the signature, then dispatch. */
  function HandleWebhook(orders: seq<Order>, users: seq<User>, rawBody: seq<int>, signature: Option<string>,
                         secretEnv: Option<string>, construct: (seq<int>, string, string) -> Result<Event, string>,
                         retrieve: string -> Option<Metadata>, sendThrows: bool): Effect {
    match construct(rawBody, OrEmpty(signature), OrEmpty(secretEnv))
    case Err(message) => Effect(Reply(400, Message("Webhook Error: " + message)), orders, None)
    case Ok(event) => Reconcile(orders, users, event, retrieve, sendThrows)
  }

  /** A delivery whose signature does not check out changes nothing. */
  lemma BadSignatureRejected(orders: seq<Order>, users: seq<User>, rawBody: seq<int>, signature: Option<string>,
                             secretEnv: Option<string>, construct: (seq<int>, string, string) -> Result<Event, string>,
                             retrieve: string -> Option<Metadata>, sendThrows: bool)
    requires construct(rawBody, OrEmpty(signature), OrEmpty(secretEnv)).Err?
    ensures var e := HandleWebhook(orders, users, rawBody, signature, secretEnv, construct, retrieve, sendThrows);
      e.reply.Reply? && e.reply.status == 400 && e.orders == orders && e.receipt.None?
  {
  }

  predicate IsSettlement(event: Event) {
    event.CheckoutCompleted? || event.AsyncPaymentSucceeded?
  }

  /** A settlement without both ids in its metadata is refused with 400, one
      whose order does not resolve with 404; neither changes anything. */
  lemma UnresolvedSettlementRefused(orders: seq<Order>, users: seq<User>, event: Event,
                                    retrieve: string -> Option<Metadata>, sendThrows: bool)
    requires IsSettlement(event)
    ensures var e := Reconcile(orders, users, event, retrieve, sendThrows);
      var meta := ReadOrderMetadata(event.sessionMetadata);
      && (meta.None? ==> e == Effect(Reply(400, Message("Webhook Error: Missing order metadata on session")), orders, None))
      && (meta.Some? && LoadOrderWithUser(orders, users, meta.value).None? ==>
            e == Effect(Reply(404, JsonError("No such user exists.")), orders, None))
  {
  }

  /** Settling an order that is already paid writes nothing and sends no
      receipt. */
  lemma AlreadyPaidUnchanged(orders: seq<Order>, users: seq<User>, event: Event,
                             retrieve: string -> Option<Metadata>, sendThrows: bool)
    requires IsSettlement(event)
    requires var meta := ReadOrderMetadata(event.sessionMetadata);
      meta.Some? && LoadOrderWithUser(orders, users, meta.value).Some?
      && orders[LoadOrderWithUser(orders, users, meta.value).value.0].isPaid
    ensures Reconcile(orders, users, event, retrieve, sendThrows) == Effect(Reply(200, Empty), orders, None)
  {
  }

  /** Settling an unpaid order marks exactly that order paid and sends one
      receipt to its owner listing the order's items at their checkout
      prices; the order stays paid even when the receipt fails (500). */
  lemma FirstSettlementPays(orders: seq<Order>, users: seq<User>, event: Event,
                            retrieve: string -> Option<Metadata>, sendThrows: bool)
    requires Unique(orders, OrderKey)
    requires IsSettlement(event)
    requires var meta := ReadOrderMetadata(event.sessionMetadata);
      meta.Some? && LoadOrderWithUser(orders, users, meta.value).Some?
      && !orders[LoadOrderWithUser(orders, users, meta.value).value.0].isPaid
    ensures
      var meta := ReadOrderMetadata(event.sessionMetadata).value;
      var (i, user) := LoadOrderWithUser(orders, users, meta).value;
      var e := Reconcile(orders, users, event, retrieve, sendThrows);
      && |e.orders| == |orders|
      && e.orders[i] == orders[i].(isPaid := true)
      && (forall k :: 0 <= k < |orders| && k != i ==> e.orders[k] == orders[k])
      && e.receipt == Some(Receipt(user.email, orders[i].id, orders[i].items))
      && e.reply == (if sendThrows then Reply(500, SendFailure) else Reply(200, SendResult))
  {
  }

  /** Replaying any event after it was handled changes nothing further and
      sends no second receipt. */
  lemma ReplayChangesNothing(orders: seq<Order>, users: seq<User>, event: Event,
                             retrieve: string -> Option<Metadata>, sendThrows: bool)
    requires Unique(orders, OrderKey)
    ensures
      var once := Reconcile(orders, users, event, retrieve, sendThrows);
      var twice := Reconcile(once.orders, users, event, retrieve, sendThrows);
      twice.orders == once.orders && twice.receipt.None?
  {
    var once := Reconcile(orders, users, event, retrieve, sendThrows);
    match event
    case CheckoutCompleted(m) => SettleTwice(orders, users, m, sendThrows);
    case AsyncPaymentSucceeded(m) => SettleTwice(orders, users, m, sendThrows);
    case AsyncPaymentFailed(m) => RevokeTwice(orders, users, ReadOrderMetadata(m));
    case ChargeRefunded(charge) =>
      if ResolveMetadataFromCharge(charge, retrieve).Resolved? {
        RevokeTwice(orders, users, ResolveMetadataFromCharge(charge, retrieve).meta);
      }
    case OtherEvent(_) =>
  }

  /** Setting the paid flag keeps every order's id, owner and items. */
  lemma WithPaidStatusKeepsKeys(orders: seq<Order>, orderId: string, isPaid: bool)
    ensures var r := WithPaidStatus(orders, orderId, isPaid);
      forall k :: 0 <= k < |orders| ==> r[k].id == orders[k].id && r[k].userId == orders[k].userId && r[k].items == orders[k].items
  {
  }

  /** An order resolves the same way in two tables that agree on every
      order's id and owner. */
  lemma {:induction false} FindSameKeys(a: seq<Order>, b: seq<Order>, orderId: string)
    requires |a| == |b|
    requires forall k :: 0 <= k < |a| ==> a[k].id == b[k].id
    ensures Find(a, OrderKey, orderId) == Find(b, OrderKey, orderId)
  {
    if a != [] {
      FindSameKeys(a[1..], b[1..], orderId);
    }
  }

  lemma LoadAfterPaidStatus(orders: seq<Order>, users: seq<User>, meta: OrderMetadata, orderId: string, isPaid: bool)
    ensures var r := WithPaidStatus(orders, orderId, isPaid);
      LoadOrderWithUser(r, users, meta) == LoadOrderWithUser(orders, users, meta)
  {
    var r := WithPaidStatus(orders, orderId, isPaid);
    WithPaidStatusKeepsKeys(orders, orderId, isPaid);
    FindSameKeys(orders, r, meta.orderId);
  }

  lemma SettleTwice(orders: seq<Order>, users: seq<User>, m: Option<Metadata>, sendThrows: bool)
    ensures
      var once := SettleCheckout(orders, users, m, sendThrows);
      var twice := SettleCheckout(once.orders, users, m, sendThrows);
      twice.orders == once.orders && twice.receipt.None?
  {
    var meta := ReadOrderMetadata(m);
    if meta.Some? && LoadOrderWithUser(orders, users, meta.value).Some? {
      var (i, user) := LoadOrderWithUser(orders, users, meta.value).value;
      var once := SettleCheckout(orders, users, m, sendThrows);
      LoadAfterPaidStatus(orders, users, meta.value, meta.value.orderId, true);
      assert once.orders[i].isPaid;
    }
  }

  lemma RevokeTwice(orders: seq<Order>, users: seq<User>, meta: Option<OrderMetadata>)
    ensures
      var once := Revoke(orders, users, meta);
      var twice := Revoke(once.orders, users, meta);
      twice.orders == once.orders && twice.receipt.None?
  {
    if meta.Some? && LoadOrderWithUser(orders, users, meta.value).Some? {
      var once := Revoke(orders, users, meta);
      LoadAfterPaidStatus(orders, users, meta.value, meta.value.orderId, false);
      WithPaidStatusTwice(orders, meta.value.orderId, false);
    }
  }

  /** Setting the same flag again changes nothing. */
  lemma WithPaidStatusTwice(orders: seq<Order>, orderId: string, isPaid: bool)
    ensures var once := WithPaidStatus(orders, orderId, isPaid);
      WithPaidStatus(once, orderId, isPaid) == once
  {
    var once := WithPaidStatus(orders, orderId, isPaid);
    var twice := WithPaidStatus(once, orderId, isPaid);
    assert forall k :: 0 <= k < |once| ==> twice[k] == once[k];
  }

  /** Some order goes from unpaid to paid. */
  predicate SomeOrderPaidNow(before: seq<Order>, after: seq<Order>) {
    |after| == |before| && exists k :: 0 <= k < |before| && !before[k].isPaid && after[k].isPaid
  }

  /** A receipt is sent exactly when the event takes an order from unpaid to
      paid: at most once per such transition, and never otherwise. */
  lemma ReceiptOnlyOnPayment(orders: seq<Order>, users: seq<User>, event: Event,
                             retrieve: string -> Option<Metadata>, sendThrows: bool)
    ensures var e := Reconcile(orders, users, event, retrieve, sendThrows);
      e.receipt.Some? <==> SomeOrderPaidNow(orders, e.orders)
  {
    var e := Reconcile(orders, users, event, retrieve, sendThrows);
    if IsSettlement(event) {
      var meta := ReadOrderMetadata(event.sessionMetadata);
      if meta.Some? && LoadOrderWithUser(orders, users, meta.value).Some? {
        var i := LoadOrderWithUser(orders, users, meta.value).value.0;
        if !orders[i].isPaid {
          assert e.orders[i].isPaid;
        }
      }
    }
  }

  /** A failed payment or a refund is always acknowledged with 200 (unless
      the intent lookup throws); it clears the flag of its order only when
      the metadata resolves to an order of that user. */
  lemma RevocationAcknowledged(orders: seq<Order>, users: seq<User>, event: Event,
                               retrieve: string -> Option<Metadata>, sendThrows: bool)
    requires event.AsyncPaymentFailed? || event.ChargeRefunded?
    ensures
      var e := Reconcile(orders, users, event, retrieve, sendThrows);
      var res := if event.AsyncPaymentFailed? then Resolved(ReadOrderMetadata(event.sessionMetadata))
                 else ResolveMetadataFromCharge(event.charge, retrieve);
      && e.receipt.None?
      && (res.RetrieveFailed? ==> e.reply == Fault && e.orders == orders)
      && (res.Resolved? ==> e.reply == Reply(200, Empty))
      && (res.Resolved? && res.meta.Some? && LoadOrderWithUser(orders, users, res.meta.value).Some? ==>
            e.orders == WithPaidStatus(orders, res.meta.value.orderId, false))
      && (res.Resolved? && (res.meta.None? || LoadOrderWithUser(orders, users, res.meta.value).None?) ==>
            e.orders == orders)
  {
  }

  /** Unknown event types are acknowledged and change nothing. */
  lemma OtherEventIgnored(orders: seq<Order>, users: seq<User>, eventType: string,
                          retrieve: string -> Option<Metadata>, sendThrows: bool)
    ensures Reconcile(orders, users, OtherEvent(eventType), retrieve, sendThrows) == Effect(Reply(200, Empty), orders, None)
  {
  }

  /** `setOrderPaidStatus`. */
  method SetOrderPaidStatus(db: Store, orderId: string, isPaid: bool)
    modifies db
    ensures db.orders == WithPaidStatus(old(db.orders), orderId, isPaid)
    ensures db.users == old(db.users) && db.products == old(db.products) && db.productFiles == old(db.productFiles)
    ensures db.media == old(db.media) && db.productImages == old(db.productImages)
  {
    db.orders := WithPaidStatus(db.orders, orderId, isPaid);
  }

  /** `stripeWebhookHandler` on the database: the reply, and the receipt
      attempted, if any. It writes only the order table, as `HandleWebhook`
      says. */
  method StripeWebhookHandler(db: Store, rawBody: seq<int>, signature: Option<string>, secretEnv: Option<string>,
                              construct: (seq<int>, string, string) -> Result<Event, string>,
                              retrieve: string -> Option<Metadata>, sendThrows: bool)
    returns (reply: Reply, receipt: Option<Receipt>)
    modifies db
    ensures Effect(reply, db.orders, receipt)
         == HandleWebhook(old(db.orders), old(db.users), rawBody, signature, secretEnv, construct, retrieve, sendThrows)
    ensures db.users == old(db.users) && db.products == old(db.products) && db.productFiles == old(db.productFiles)
    ensures db.media == old(db.media) && db.productImages == old(db.productImages)
  {
    receipt := None;
    var event;
    match construct(rawBody, OrEmpty(signature), OrEmpty(secretEnv)) {
      case Err(message) =>
        reply := Reply(400, Message("Webhook Error: " + message));
        return;
      case Ok(e) =>
        event := e;
    }

    if event.CheckoutCompleted? || event.AsyncPaymentSucceeded? {
      var metadata := ReadOrderMetadata(event.sessionMetadata);
      if metadata.None? {
        reply := Reply(400, Message("Webhook Error: Missing order metadata on session"));
        return;
      }
      var loaded := LoadOrderWithUser(db.orders, db.users, metadata.value);
      if loaded.None? {
        reply := Reply(404, JsonError("No such user exists."));
        return;
      }
      var (i, user) := loaded.value;
      var wasPaid := db.orders[i].isPaid;
      var items := db.orders[i].items;
      if !wasPaid {
        SetOrderPaidStatus(db, metadata.value.orderId, true);
      }
      if wasPaid {
        reply := Reply(200, Empty);
        return;
      }
      receipt := Some(Receipt(user.email, metadata.value.orderId, items));
      reply := if sendThrows then Reply(500, SendFailure) else Reply(200, SendResult);
      return;
    }

    if event.AsyncPaymentFailed? {
      var metadata := ReadOrderMetadata(event.sessionMetadata);
      if metadata.Some? && LoadOrderWithUser(db.orders, db.users, metadata.value).Some? {
        SetOrderPaidStatus(db, metadata.value.orderId, false);
      }
      reply := Reply(200, Empty);
      return;
    }

    if event.ChargeRefunded? {
      var resolution := ResolveMetadataFromCharge(event.charge, retrieve);
      if resolution.RetrieveFailed? {
        reply := Fault;
        return;
      }
      var metadata := resolution.meta;
      if metadata.Some? && LoadOrderWithUser(db.orders, db.users, metadata.value).Some? {
        SetOrderPaidStatus(db, metadata.value.orderId, false);
      }
      reply := Reply(200, Empty);
      return;
    }

    reply := Reply(200, Empty);
  }
}
