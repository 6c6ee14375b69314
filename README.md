# Rinoshop marketplace core, modelled in Dafny

Rinoshop is a digital-goods marketplace. Sellers list products, an
administrator approves them and registers them with the payment processor, and
buyers check out. The processor's webhook marks orders paid, and paid orders
(or a signed download token) unlock a product's file. This project models the
server-side decision logic and the table updates behind that life cycle, and
proves what the code promises about them:

- the download-token codec (`base64url(json) "." HMAC(json)`, time-limited);
- the entitlement gate of the download route;
- the webhook's per-order state machine on `isPaid`;
- the product life cycle: create, update with its approved-edit gate, approve
  with its remote catalogue ids, deny, and the pending queue;
- checkout: the filtered order, the price snapshot and the line items;
- the tRPC guards and the product validators;
- catalogue pagination;
- the session utilities: `Set-Cookie` splitting, e-mail normalisation, the
  three-way user upsert and the session-cookie filter;
- the blob-upload callbacks;
- the mapping from database records to the store's product shape.

Tables are sequences of rows in insertion order, held by the class
`Db.Store`. Lookups return the first matching row. Operations that the source
writes step by step are methods on the store (or on `Http.Response`), proved
equal to a specification function. The properties are lemmas about those
functions. Every foreign service is a parameter of the operation, so the
proofs hold for every behaviour of it:

- the payment processor,
- the e-mail service,
- the identity provider's session endpoint,
- the blob store,
- `fetch`,
- HMAC-SHA256, UTF-8 and JSON.

Where a proof needs a law of such a parameter, that law is a hypothesis
(`Lawful`) of the proof. Identifiers the database generates, the clock, and
environment variables are parameters too.

Modules, one per source file, plus shared ones:

- `Wrappers`: `Option`, `Result`, and JavaScript truthiness of optional
  strings.
- `Text`: `trim` (ECMAScript white space and line terminators), `toLowerCase`
  (of `A`-`Z` only), `split`, `join`, `startsWith`.
- `Sorting`: a stable insertion sort, standing in for `orderBy`.
- `Base64Url`: `base64url` encoding and decoding (section 5 of RFC 4648),
  implemented with its round trip proved.
- `Db`: the entities and the `Store`.
- `Http`: the small part of the Express response the handlers use.
- `DownloadTokens`, `Downloads`, `Webhooks`, `AdminRouter`, `SellerRouter`,
  `PaymentRouter`, `ProductValidator`, `Trpc`, `Catalogue`, `Auth`,
  `NeonSession`, `BlobUpload`, `Products`: one per source file.

Two behaviours of the code worth noting:

- A failed approval does not keep the remote ids it has already created, so a
  retry creates another remote product. `AdminRouter.RetryCreatesAnotherProduct`
  shows this.
- The webhook's "No such order exists." reply cannot happen.
  `loadOrderWithUser` returns an order exactly when it returns a user, so a
  missing order always gets the "No such user exists." 404.

## Model

| member | source | states |
|---|---|---|
| Base64Url.RoundTrip | src/lib/download-tokens.ts:12-16 | decoding the base64url encoding of any byte sequence gives it back |
| Base64Url.NoDot | src/lib/download-tokens.ts:45 | an encoding never contains `.`, so it is one segment of a token |
| Base64Url.Encode | src/lib/download-tokens.ts:12-13 | the text uses only the URL-safe alphabet and has `ceil(4n/3)` characters for `n` bytes, without padding; `RoundTrip` is its inverse law |
| Base64Url.Decode | src/lib/download-tokens.ts:15-16 | the lenient decoder; `RoundTrip` states that it inverts `Encode`, and `CleanAlphabet` that it reads text over the alphabet as it is |
| Base64Url.ValuesOfChars | src/lib/download-tokens.ts:12-16 | reading back the characters of any sextets gives the sextets |
| Base64Url.BytesOfSextets | src/lib/download-tokens.ts:12-16 | regrouping the sextets of any bytes gives the bytes |
| Base64Url.CleanAlphabet | src/lib/download-tokens.ts:15-16 | the lenient decoder reads a text over the alphabet as it is |
| DownloadTokens.GetSecret | src/lib/download-tokens.ts:9-10 | a secret exists exactly when the variable is set and non-empty, and it is that value |
| DownloadTokens.CreateDownloadToken | src/lib/download-tokens.ts:24-46 | minting yields no token exactly when no secret is configured |
| DownloadTokens.VerifyDownloadToken | src/lib/download-tokens.ts:48-76 | no secret, an empty first or missing second segment, a signature other than the HMAC of the decoded first segment, a parse failure, an empty id or `now > exp` all give `None`; an accepted payload is the parse of the decoded first segment |
| DownloadTokens.VerifyAccepts | src/lib/download-tokens.ts:48-76 | the converse: a token that passes every guard (including `now == exp`, and an `exp` that is not a number) is accepted with its parsed payload |
| DownloadTokens.MintedShape | src/lib/download-tokens.ts:27-45 | a minted token has exactly two segments: the encoded JSON of `{userId, productId, now + ttl*1000}` and the 43-character signature of the JSON text, not of its encoding |
| DownloadTokens.RoundTrip | src/lib/download-tokens.ts:24-72 | with the same secret, a minted token verifies at every `now <= exp`, giving back both ids and the expiry |
| DownloadTokens.ExpiredTokenRefused | src/lib/download-tokens.ts:68-70 | a minted token is refused at every `now > exp` |
| DownloadTokens.ThirdSegmentIgnored | src/lib/download-tokens.ts:52 | anything after a second `.` does not change the verdict |
| DownloadTokens.VerifyReadsTwoSegments | src/lib/download-tokens.ts:52-54 | two tokens whose first two segments agree get the same verdict |
| Downloads.SanitizeFilename | src/server/downloads.ts:7-8 | the length is kept, allowed characters are kept, and every other character becomes `-` |
| Downloads.SanitizedIsAllowed | src/server/downloads.ts:7-8 | every character of a sanitised name is in `[a-zA-Z0-9._-]` |
| Downloads.SanitizeKeepsAllowed | src/server/downloads.ts:7-8 | a name made of allowed characters is its own sanitisation |
| Downloads.SanitizeIdempotent | src/server/downloads.ts:7-8 | sanitising twice is sanitising once |
| Downloads.TokenOf | src/server/downloads.ts:16-19 | the token is read only from a string query value |
| Downloads.FileOf | src/server/downloads.ts:54-65 | a file is found exactly when the product exists, its file row exists and the row has a URL |
| Downloads.DownloadName | src/server/downloads.ts:73-76 | the stored filename, else `<name>.zip`, sanitised; `UpstreamDecides` states it as the `Content-Disposition` name, and `SanitizedIsAllowed` bounds its characters |
| Downloads.ContentType | src/server/downloads.ts:77-80 | the upstream type, else the stored type, else `application/octet-stream`; stated through `UpstreamDecides` |
| Downloads.ResponseHeaders | src/server/downloads.ts:81-94 | the headers of a served file, in the order the code sets them; `UpstreamDecides` and `Downloads.ServeFile` state them |
| Downloads.Checked | src/server/downloads.ts:26-52 | the no-token branch: 401 without a session user, 403 without a paid order; stated through `AnonymousRefused`, `UnpaidRefused` and `EntitlementFirst` |
| Downloads.Delivery | src/server/downloads.ts:54-94 | the answer to an entitled request; stated through `MissingFileNotFound` and `UpstreamDecides` |
| Downloads.Answered | src/server/downloads.ts:33-106 | a refused request has its status and message and its other headers kept; a served one keeps its status, gets the chosen headers and the piped file |
| Downloads.Decide | src/server/downloads.ts:11-95 | only an entitled request is served; the guard chain itself is stated by `AnonymousRefused`, `UnpaidRefused`, `EntitlementFirst`, `MissingFileNotFound` and `UpstreamDecides` |
| Downloads.AnonymousRefused | src/server/downloads.ts:26-34 | without a valid token, no session user means 401 |
| Downloads.UnpaidRefused | src/server/downloads.ts:36-51 | without a valid token, a user with no paid order containing the product gets 403, whatever the product table holds |
| Downloads.EntitlementFirst | src/server/downloads.ts:26-65 | 404, 502 and serving happen only for entitled requests, and an entitled request never gets 401 or 403 |
| Downloads.MissingFileNotFound | src/server/downloads.ts:54-65 | an entitled request for a product without a stored file URL gets 404 |
| Downloads.UpstreamDecides | src/server/downloads.ts:67-94 | an upstream answer that is not ok or has no body gives 502; otherwise the file is served from the stored URL with `Content-Type` (upstream, stored, then octet-stream), `Content-Disposition` with the sanitised name (or `<name>.zip`), `Cache-Control: no-store` and `Content-Length` when the upstream gives it |
| Downloads.NonStringTokenIgnored | src/server/downloads.ts:16-22 | a non-string or empty token is the same as no token |
| Downloads.MintedTokenGrants | src/server/downloads.ts:20-26 | a live token minted for any user and this product passes with no session and no order: the token's user is never compared |
| Downloads.DownloadHandler | src/server/downloads.ts:11-106 | with a valid token, no session lookup and the response `Decide` chooses; without one, the session lookup runs first: the user table is synced as `Auth.SessionSpec` says and its cookies are applied; a failed lookup sends nothing; otherwise the response is what `Decide` chooses for the looked-up user; no table but the users is written |
| Downloads.SessionPath | src/server/downloads.ts:26-65 | the no-token path: the session lookup's writes and cookies, then the answer `Checked` gives for its user |
| Downloads.Deliver | src/server/downloads.ts:54-106 | the response is what `Delivery` chooses: 404, 502, or the headers and the piped file |
| Downloads.ServeFile | src/server/downloads.ts:81-106 | on success the response keeps its status, gets `Content-Type`, `Content-Disposition`, `Cache-Control` and, when upstream sends one, `Content-Length`, and its body is the piped file |
| Webhooks.ReadOrderMetadata | src/webhooks.ts:18-27 | both ids, unchanged, exactly when both are present and non-empty |
| Webhooks.LoadOrderWithUser | src/webhooks.ts:30-53 | an order resolves only when a row with the id exists and belongs to the metadata's user, and it comes with that user |
| Webhooks.WithPaidStatus | src/webhooks.ts:56-64 | the flag of the order with that id is set, and every other row and field is kept |
| Webhooks.ResolveMetadataFromCharge | src/webhooks.ts:67-86 | the charge's own metadata first; then the payment intent's metadata when the charge names one by string id; else none |
| Webhooks.SettleCheckout | src/webhooks.ts:115-181 | the settlement of a checkout session or payment intent; its meaning is stated by `UnresolvedSettlementRefused`, `AlreadyPaidUnchanged`, `FirstSettlementPays` and `SettleTwice` |
| Webhooks.Revoke | src/webhooks.ts:184-213 | a failed payment or a refund; stated by `RevocationAcknowledged` and `RevokeTwice` |
| Webhooks.Reconcile | src/webhooks.ts:115-215 | the per-event-type dispatch after the signature check; stated by `OtherEventIgnored`, `ReplayChangesNothing` and `ReceiptOnlyOnPayment` |
| Webhooks.HandleWebhook | src/webhooks.ts:89-216 | the whole webhook as a value: reply, new order table, receipt; stated by `BadSignatureRejected` and the lemmas on `Reconcile` |
| Webhooks.BadSignatureRejected | src/webhooks.ts:97-113 | a delivery whose signature does not check out gets 400 with the error's message and changes nothing |
| Webhooks.UnresolvedSettlementRefused | src/webhooks.ts:115-145 | a settlement without both ids gets 400, one whose order does not resolve gets 404, and neither writes or sends |
| Webhooks.AlreadyPaidUnchanged | src/webhooks.ts:147-155 | settling a paid order replies 200, writes nothing and sends no receipt |
| Webhooks.FirstSettlementPays | src/webhooks.ts:147-181 | settling an unpaid order marks exactly that order paid and attempts one receipt to its owner, listing the order items at their snapshot prices; the order stays paid when the receipt fails with 500 |
| Webhooks.ReplayChangesNothing | src/webhooks.ts:115-215 | handling an event a second time changes no order and sends no second receipt |
| Webhooks.WithPaidStatusKeepsKeys | src/webhooks.ts:56-64 | setting the flag keeps every order's id, owner and items |
| Webhooks.LoadAfterPaidStatus | src/webhooks.ts:30-64 | an order resolves the same way before and after its flag is set |
| Webhooks.SettleTwice | src/webhooks.ts:115-181 | a second settlement of the same metadata is the already-paid case |
| Webhooks.RevokeTwice | src/webhooks.ts:184-213 | a second failure or refund for the same metadata changes nothing |
| Webhooks.ReceiptOnlyOnPayment | src/webhooks.ts:147-181 | a receipt is attempted exactly when the event takes some order from unpaid to paid |
| Webhooks.RevocationAcknowledged | src/webhooks.ts:184-213 | a failed payment or refund replies 200 (unless the intent lookup throws) and clears the flag only of the order its metadata resolves to |
| Webhooks.OtherEventIgnored | src/webhooks.ts:215 | any other event type replies 200 and changes nothing |
| Webhooks.SetOrderPaidStatus | src/webhooks.ts:56-64 | the order table becomes `WithPaidStatus` of the old one, and no other table changes |
| Webhooks.StripeWebhookHandler | src/webhooks.ts:89-216 | the reply, the new order table and the receipt are those of `HandleWebhook`; only the order table is written |
| Trpc.IsAuth | src/trpc/trpc.ts:8-21 | `UNAUTHORIZED` exactly when there is no user or its id is empty; otherwise the context with `user` set and nothing else changed |
| Trpc.IsAdmin | src/trpc/trpc.ts:24-37 | `FORBIDDEN` exactly when there is no user or its role is not `ADMIN`; otherwise the context with `user` set |
| Trpc.Guard | src/trpc/trpc.ts:40-42 | the three procedures' middleware chains; `PublicUnguarded`, `AdminGuardExactly`, `AdminGuardErrors` and `AdminIsPrivate` state what each admits |
| Trpc.PublicUnguarded | src/trpc/trpc.ts:40 | the public procedure passes every context through unchanged |
| Trpc.AdminGuardExactly | src/trpc/trpc.ts:41-42 | the admin procedure admits exactly the callers with a non-empty id and the `ADMIN` role |
| Trpc.AdminGuardErrors | src/trpc/trpc.ts:41-42 | an anonymous caller gets `UNAUTHORIZED`, not `FORBIDDEN`; a signed-in non-admin gets `FORBIDDEN` |
| Trpc.AdminIsPrivate | src/trpc/trpc.ts:41-42 | every caller the admin procedure admits is admitted by the private procedure |
| ProductValidator.ProductIssues | src/lib/validators/product-validator.ts:8-24 | each message is reported exactly when its rule fails (name 2..120, description at most 2000, price 1..100000, a configured category), and there is no issue exactly when the input is acceptable |
| ProductValidator.UpdateIssues | src/lib/validators/product-validator.ts:30-34 | the same issues first, then an issue exactly when `productId` is not a UUID; none exactly when both hold |
| ProductValidator.StoredNameCanBeShort | src/lib/validators/product-validator.ts:9-12 | a name that passes validation can be shorter than 2 once trimmed (as src/trpc/seller-router.ts:93 stores it) |
| Catalogue.Listed | src/trpc/index.ts:30-33 | the rows are exactly the approved products, of the category when one is given |
| Catalogue.Window | src/trpc/index.ts:38-39 | `skip`/`take` select at most `take` rows from position `skip`, in order |
| Catalogue.Views | src/trpc/index.ts:44-46 | each row is mapped to the store shape, in order |
| Catalogue.SkipOf | src/trpc/index.ts:27-28 | with a valid limit, `skip` is negative exactly when the page is below 1 |
| Catalogue.GetInfiniteProducts | src/trpc/index.ts:16-52 | a limit outside 1..100 is `BAD_REQUEST`; a page below 1 fails; otherwise the items are rows `skip..skip+min(n,limit)` mapped, and `nextPage` is `page+1` exactly when more rows follow |
| Catalogue.PageOnlyApproved | src/trpc/index.ts:30-33 | every row a page shows is approved and of the requested category |
| Catalogue.PageRowsSorted | src/trpc/index.ts:37 | with `sort`, the rows are a permutation of the matching products ordered by `createdAt` in that direction |
| Catalogue.NextPageContinues | src/trpc/index.ts:27-50 | when `nextPage` is given, this page is full and the next page starts with the row right after its last one |
| Catalogue.SkipOfNext | src/trpc/index.ts:28 | the next page's `skip` is this page's plus `limit` |
| Products.MediaOf | src/lib/products.ts:47 | the images have the entries' length and order, each being that entry's media |
| Products.MapProductRecord | src/lib/products.ts:39-49 | id, name, description, price and category are copied; images are the entries' media in order; a missing file becomes `null` and a present one is passed through |
| Products.LinksOf | src/lib/products.ts:18-19 | the links are exactly the product's own |
| Products.OrderedLinksOwned | src/lib/products.ts:18-31 | every ordered link belongs to the product and has an existing media row |
| Products.ImagesInSortOrder | src/lib/products.ts:18-47 | the selected links are a permutation of the product's links in ascending `sortOrder`, and a mapped product's images are their media, one per link and in that order |
| AdminRouter.PendingOf | src/trpc/admin-router.ts:14 | exactly the `PENDING` products |
| AdminRouter.RowsOf | src/trpc/admin-router.ts:16-27 | one selected row per product, in order, with the owner's e-mail |
| AdminRouter.PendingQueue | src/trpc/admin-router.ts:12-29 | every pending product has a row, every row is a pending product's, there are as many rows as pending products, and the rows are in ascending `createdAt` |
| AdminRouter.PendingMultiplicity | src/trpc/admin-router.ts:14 | a pending product is kept as often as the table holds it, any other not at all |
| AdminRouter.ListPendingProducts | src/trpc/admin-router.ts:12-29 | the admin guard, then the queue; stated by `PendingQueue` and `Trpc.AdminGuardExactly` |
| AdminRouter.UnitAmount | src/trpc/admin-router.ts:65 | the amount is `price * 100` rounded to the nearest cent, halves up |
| AdminRouter.EnsureRemote | src/trpc/admin-router.ts:74-98 | the remote product and price calls; stated by `EnsureRemoteCalls` and `RetryCreatesAnotherProduct` |
| AdminRouter.Approve | src/trpc/admin-router.ts:30-117 | approval as a value; stated by `ApproveUnknown`, `ApproveAlreadyApproved`, `ApproveLowPrice`, `ApproveOutcome`, `ApproveSuccess`, `ApproveFailureWritesNothing` and `ApproveTwice` |
| AdminRouter.ApproveFailureWritesNothing | src/trpc/admin-router.ts:46-105 | every failed approval leaves the product table unchanged |
| AdminRouter.ApproveUnknown | src/trpc/admin-router.ts:46-48 | an unknown product is `NOT_FOUND` with no remote call |
| AdminRouter.ApproveAlreadyApproved | src/trpc/admin-router.ts:50-56 | an approved product with both remote ids answers `already-approved`, with no remote call and no write, whatever its price |
| AdminRouter.ApproveLowPrice | src/trpc/admin-router.ts:65-72 | otherwise, a price that rounds below 100 cents is `BAD_REQUEST` before any remote call |
| AdminRouter.ApproveOutcome | src/trpc/admin-router.ts:74-116 | past the guard, the lookup, the already-approved answer and the price check, a failed remote step is `INTERNAL_SERVER_ERROR` "Stripe approval failed." and a successful one answers `approved`, each exactly; the calls are those of the remote step |
| AdminRouter.EnsureRemoteCalls | src/trpc/admin-router.ts:74-98 | a remote product is created only without `stripeId` and a remote price only without `priceId`, in that order, the price in cents and `usd` |
| AdminRouter.ApproveSuccess | src/trpc/admin-router.ts:107-116 | success is one write setting `APPROVED` and both ids, nothing else changed, answering `approved` |
| AdminRouter.ApproveTwice | src/trpc/admin-router.ts:49-55 | approving an approved product again answers `already-approved` and changes nothing: the write of lines 107-114 is not repeated |
| AdminRouter.RetryCreatesAnotherProduct | src/trpc/admin-router.ts:99-105 | after a failed price creation, a retry creates the remote product again, because its id was not kept |
| AdminRouter.Deny | src/trpc/admin-router.ts:118-136 | denial as a value; stated by `DenyFromAnyState` |
| AdminRouter.DenyFromAnyState | src/trpc/admin-router.ts:118-136 | denial sets `DENIED` from any state with no remote call, keeps the remote ids and every other field and row, and is `NOT_FOUND` exactly for an unknown id |
| AdminRouter.ApproveProduct | src/trpc/admin-router.ts:30-117 | the result, the remote calls and the product table are those of `Approve`; no other table changes |
| AdminRouter.DenyProduct | src/trpc/admin-router.ts:118-136 | the result and the product table are those of `Deny`; no other table changes |
| PaymentRouter.Requested | src/trpc/payment-router.ts:23-35 | exactly the approved products whose id was asked for |
| PaymentRouter.WithPrice | src/trpc/payment-router.ts:37-39 | exactly the products with a truthy `priceId` |
| PaymentRouter.Survivors | src/trpc/payment-router.ts:23-39 | a product survives exactly when it is asked for, approved and has a price id |
| PaymentRouter.ItemsOf | src/trpc/payment-router.ts:49-54 | one item per product, with its id and its current price |
| PaymentRouter.LineItemsOf | src/trpc/payment-router.ts:58-74 | one line per survivor with its price id and quantity 1, then the fixed extra line; survivors + 1 lines |
| PaymentRouter.CreateSession | src/trpc/payment-router.ts:13-101 | the session creation as a value; stated by `NothingToBuy`, `SessionWhenPurchasable`, `SessionCreatesOrder`, `SessionRequestShape`, `OrderItemsSnapshot` and `SessionKeepsOrders` |
| PaymentRouter.NothingToBuy | src/trpc/payment-router.ts:19-43 | an empty request, or no survivor, is `BAD_REQUEST` and creates no order |
| PaymentRouter.SessionWhenPurchasable | src/trpc/payment-router.ts:19-95 | a signed-in caller asking for some purchasable product gets a checkout request, an `Ok` result and one new unpaid order of theirs with an item per purchasable product |
| PaymentRouter.SessionCreatesOrder | src/trpc/payment-router.ts:45-56 | a session is asked for only for a signed-in caller with a purchasable product, after one unpaid order of the caller with an item per survivor at its current price is appended; it stays whatever the processor answers |
| PaymentRouter.SessionRequestShape | src/trpc/payment-router.ts:76-95 | the request carries the line items (survivors + 1), the success URL with the order id, and `{userId, orderId}` as both session and payment-intent metadata; a processor failure answers `url: null`, a session its `url` |
| PaymentRouter.OrderItemsSnapshot | src/trpc/payment-router.ts:45-56 | each item of the new order is a surviving product at its price at that moment |
| PaymentRouter.SessionKeepsOrders | src/trpc/payment-router.ts:76-100 | existing orders are kept as a prefix of the table, and a rejected request adds no order |
| PaymentRouter.PollOrderStatus | src/trpc/payment-router.ts:102-117 | `NOT_FOUND` exactly for an unknown order, else its `isPaid` |
| PaymentRouter.PollIgnoresCaller | src/trpc/payment-router.ts:102-117 | any two signed-in callers get the same answer: there is no ownership check |
| PaymentRouter.BuildLineItems | src/trpc/payment-router.ts:58-74 | the `forEach`/`push` loop and the final push build one line of quantity 1 with its `priceId` per product, in order, then the fixed extra line: exactly `LineItemsOf` |
| PaymentRouter.CreateSessionHandler | src/trpc/payment-router.ts:13-101 | the result, the order table and the session request are those of `CreateSession` |
| SellerRouter.GetProduct | src/trpc/seller-router.ts:38-69 | `NOT_FOUND` exactly when the caller owns no product with that id; otherwise the view of such a product |
| SellerRouter.GetProductLinks | src/trpc/seller-router.ts:46-61 | the images are those of the product's links in `sortOrder` |
| SellerRouter.GetProductSorted | src/trpc/seller-router.ts:46-47 | the images are in ascending `sortOrder` |
| SellerRouter.GetProductImages | src/trpc/seller-router.ts:46-61 | with every link's media present, one image per link of the product (a permutation of its links), each with that link's `sortOrder` and its media |
| SellerRouter.SellerImagesSorted | src/trpc/seller-router.ts:46-47 | images built from links in ascending `sortOrder` are in ascending `sortOrder` |
| SellerRouter.SellerImagesLinked | src/trpc/seller-router.ts:46-61 | when every link's media exists, there is one image per link, with that link's `sortOrder` and its media |
| SellerRouter.OwnedBy | src/trpc/seller-router.ts:72 | exactly the caller's products |
| SellerRouter.SellerViews | src/trpc/seller-router.ts:74 | one view per product, in order |
| SellerRouter.ListProductsOwned | src/trpc/seller-router.ts:70-76 | the list shows a permutation of the caller's products and nobody else's, newest first |
| SellerRouter.ListProducts | src/trpc/seller-router.ts:70-76 | the listing as a value; stated by `ListProductsOwned` |
| SellerRouter.CleanDescription | src/trpc/seller-router.ts:80 | the description is trimmed, and `null` when nothing is left (as on update, line 126) |
| SellerRouter.CreateLinksFile | src/trpc/seller-router.ts:77-102 | creation adds one file row and one product row of the caller, the product `PENDING`, with trimmed name and clean description, linked to that file |
| SellerRouter.FindAppended | src/trpc/seller-router.ts:83-97 | the appended file row is found by its fresh id |
| SellerRouter.Create | src/trpc/seller-router.ts:77-102 | creation as a value; stated by `CreateLinksFile` and `FindAppended` |
| SellerRouter.Update | src/trpc/seller-router.ts:103-138 | the update as a value; stated by `UpdateGate` |
| SellerRouter.UpdateGate | src/trpc/seller-router.ts:106-137 | a product the caller does not own is `NOT_FOUND`, an approved one is `FORBIDDEN`; otherwise only name, description, price and category change, so status and remote ids are kept |
| SellerRouter.CreateProduct | src/trpc/seller-router.ts:77-102 | both tables become those of `Create` in one step |
| SellerRouter.UpdateProduct | src/trpc/seller-router.ts:103-138 | the product table becomes that of `Update` |
| Auth.NormalizeEmail | src/lib/auth.ts:16-17 | `null` stays `null`; otherwise the address trimmed and lower-cased, of the trimmed length |
| Auth.NormalizeEmailChars | src/lib/auth.ts:16-17 | each character of a normalised address is the lower case of the matching character of the address after its leading white space |
| Auth.LowerKeepsTrimmed | src/lib/auth.ts:17 | lower-casing keeps a trimmed text trimmed |
| Auth.NormalizeIdempotent | src/lib/auth.ts:16-17 | a normalised address normalises to itself |
| Auth.Step | src/lib/auth.ts:25-45 | reading one character: `expires=` sets the flag, `;` clears it, and a comma outside it completes the trimmed piece since the last cut (kept when non-empty) and moves the start after it |
| Auth.Finish | src/lib/auth.ts:47-50 | the cookies are those completed by the whole header, then the trimmed rest after the last cut when non-empty |
| Auth.SplitSetCookieHeader | src/lib/auth.ts:20-51 | the loop returns exactly the cookies the specification cuts at every comma outside an `Expires` date |
| Auth.SplitTrimmed | src/lib/auth.ts:41-48 | every cookie is trimmed and non-empty |
| Auth.NoCutOneCookie | src/lib/auth.ts:47-50 | a header with no splitting comma gives at most one cookie, the trimmed header |
| Auth.ExpiresAbsorbs | src/lib/auth.ts:28-40 | after a case-insensitive `expires=`, no comma splits until the next `;` |
| Auth.SplitSegments | src/lib/auth.ts:20-51 | the cuts are exactly the commas outside an `Expires` date, in increasing order; the pieces are the non-overlapping ranges between consecutive cuts and after the last; the cookies are those pieces trimmed, empty ones dropped, in order |
| Auth.CutsInOrder | src/lib/auth.ts:40-48 | increasing cuts delimit consecutive, non-overlapping pieces covering the header |
| Auth.SplitSpec | src/lib/auth.ts:20-51 | the cookies as a value; stated by `SplitSegments`, `SplitTrimmed`, `NoCutOneCookie` and `ExpiresAbsorbs`, and computed by `SplitSetCookieHeader` |
| Auth.ApplySetCookies | src/lib/auth.ts:53-62 | the response gets `set-cookie` set to the cookies when there are any, and is untouched otherwise |
| Auth.Sync | src/lib/auth.ts:65-110 | the upsert as a value; stated by `SyncResult`, `SyncChoosesRow`, `SyncTwice` and `SyncKeepsValid` |
| Auth.UpdateEmail | src/lib/auth.ts:76-85 | the first branch (re-address the linked row); stated by `UpdateEmailUpserted` |
| Auth.Link | src/lib/auth.ts:88-100 | the second branch (link the e-mail's row); stated by `LinkUpserted` |
| Auth.Create | src/lib/auth.ts:103-109 | the third branch (a new row); stated by `CreateUpserted` |
| Auth.UpdateEmailUpserted | src/lib/auth.ts:76-85 | the first branch returns the linked row with the normalised e-mail |
| Auth.LinkUpserted | src/lib/auth.ts:88-100 | the second branch returns the e-mail's row linked to the identity |
| Auth.CreateUpserted | src/lib/auth.ts:103-109 | the third branch returns a new `USER` row with the identity and the e-mail |
| Auth.SyncResult | src/lib/auth.ts:65-110 | `null` exactly when the identity has no id or e-mail or the normalised e-mail is empty; a returned row is in the new table, carries this identity and the normalised e-mail, and is either the new `USER` row or keeps an existing row's id and role; a failure leaves the table unchanged |
| Auth.SyncChoosesRow | src/lib/auth.ts:72-109 | the row linked to the identity is chosen first (failing exactly on an e-mail taken by another row), else the row with the e-mail, else a new `USER` row appended with the fresh id |
| Auth.SyncTwice | src/lib/auth.ts:72-85 | a second call with the same identity returns the same row and changes nothing |
| Auth.SyncKeepsValid | src/lib/auth.ts:65-110 | the upsert keeps ids, e-mails and identity links unique, or fails with the database's unique-constraint error |
| Auth.SyncUser | src/lib/auth.ts:65-110 | the result and the user table are those of `Sync`; no other table changes |
| Auth.GetAuthSessionFromRequest | src/lib/auth.ts:127-151 | the result and the user table are those of `SessionSpec` and the headers are those of `WithCookies`: a missing base URL rejects with nothing changed; otherwise the refreshed cookies are applied as `applySetCookies` does, and the user table is synced only when the provider names a user |
| Auth.SessionSpec | src/lib/auth.ts:127-151 | the session lookup as a value: result, user table and cookie to apply; stated through `GetAuthSessionFromRequest` and the lemmas on `Sync` |
| Auth.WithCookies | src/lib/auth.ts:53-62 | the header map after `applySetCookies`; stated through `ApplySetCookies` |
| NeonSession.TrimAll | src/lib/auth/neon-session.ts:21 | each piece trimmed, in order |
| NeonSession.KeepNeon | src/lib/auth/neon-session.ts:22 | only pieces with the session-cookie prefix, at most as many as given |
| NeonSession.KeepNeonMembers | src/lib/auth/neon-session.ts:22 | exactly the pieces with the prefix are kept |
| NeonSession.KeepNeonAppend | src/lib/auth/neon-session.ts:22 | the filter keeps order: filtering a concatenation is concatenating the filtered parts |
| NeonSession.KeptCookie | src/lib/auth/neon-session.ts:19-22 | one `;`-part contributes its trimmed self exactly when that starts with the prefix, else nothing |
| NeonSession.NeonParts | src/lib/auth/neon-session.ts:11-22 | the trimmed `;`-parts with the prefix, each trimmed and free of `;` |
| NeonSession.NeonPartsSingle | src/lib/auth/neon-session.ts:19-22 | a header without `;` contributes only its own kept cookie |
| NeonSession.NeonPartsCons | src/lib/auth/neon-session.ts:19-22 | the session cookies of `a;b` are those of `a` followed by those of `b`, so their order is the header's |
| NeonSession.ExtractNeonAuthCookies | src/lib/auth/neon-session.ts:14-24 | `''` without a header; its other properties are stated by `ExtractReadsBack`, `ExtractEmpty` and `ExtractIdempotent` |
| NeonSession.ExtractReadsBack | src/lib/auth/neon-session.ts:14-24 | the filtered header is empty exactly when the header has no session cookie; otherwise splitting it at `;` and trimming gives back the session cookies in header order |
| NeonSession.SplitJoined | src/lib/auth/neon-session.ts:19-23 | splitting a `'; '`-joined text of `;`-free pieces gives the pieces back, blanks included |
| NeonSession.ExtractIdempotent | src/lib/auth/neon-session.ts:14-24 | filtering the filtered header gives the same text |
| NeonSession.FetchNeonSession | src/lib/auth/neon-session.ts:27-75 | no base URL is an error; no session cookie gives all nulls with no request; otherwise one request to the base's `get-session` with the filtered cookies and the origin when given; a reply that is not ok or not JSON gives nulls but keeps `set-cookie`; otherwise its session and user and `set-cookie` |
| NeonSession.SessionUrl | src/lib/auth/neon-session.ts:48-51 | the base, given a `/` when it lacks one and otherwise unchanged, followed by `get-session` |
| NeonSession.ExtractEmpty | src/lib/auth/neon-session.ts:14-24 | the filtered header is empty exactly when there is no header or no session cookie in it, the case in which lines 44-46 make no request |
| BlobUpload.Nullish | src/server/blob-upload.ts:53 | `??` replaces only a missing or `null` value (as for `productId` at line 75) |
| BlobUpload.ParsePayload | src/server/blob-upload.ts:13-20 | `{}` for a missing or empty payload or one that does not parse; otherwise the parsed value |
| BlobUpload.BeforeGenerateToken | src/server/blob-upload.ts:39-80 | `Unauthorized` without a session user; a token carries that user's id and the pathname, always adds a random suffix, and limits content to `image/*` exactly for media |
| BlobUpload.TokenRules | src/server/blob-upload.ts:52-78 | a product the caller does not own is `Forbidden`; a token records the kind (default `media`) and the product or `null`, and is issued for a product only when the caller owns it; without a product it is always issued |
| BlobUpload.NoUserNoChange | src/server/blob-upload.ts:82-85 | a completion whose payload names no user writes nothing |
| BlobUpload.StoredFilenameIsLastSegment | src/server/blob-upload.ts:87-88 | the stored filename is the suffix of the pathname after its last `/` |
| BlobUpload.MediaCompletion | src/server/blob-upload.ts:91-109 | a media upload adds one media row of the user with the blob's URL, filename and type; and an image link to the named product when it exists; other tables are untouched |
| BlobUpload.ProductFileCompletion | src/server/blob-upload.ts:111-128 | a product-file upload adds one file row of the user and repoints only the named product's `productFileId` to it; the media tables are untouched |
| BlobUpload.OtherKindNoChange | src/server/blob-upload.ts:89-128 | any other kind writes nothing |
| BlobUpload.NonStringUserFails | src/server/blob-upload.ts:91-128 | a media or product-file completion whose truthy user id is not a string fails with a database error and writes nothing |
| BlobUpload.UploadCompleted | src/server/blob-upload.ts:81-129 | the completion callback as a value; stated by `NoUserNoChange`, `MediaCompletion`, `ProductFileCompletion`, `NonStringUserFails`, `OtherKindNoChange` and `CompletionOfIssuedToken` |
| BlobUpload.CompletionOfIssuedToken | src/server/blob-upload.ts:39-128 | a completion for a token this server issued writes rows of that token's user, and links or repoints only a product that user owned |
| BlobUpload.OnUploadCompleted | src/server/blob-upload.ts:81-129 | the error and the media, image, file and product tables are those of `UploadCompleted` |
| BlobUpload.BlobUploadHandler | src/server/blob-upload.ts:23-141 | a missing or non-object body is 400 `Missing upload payload` and changes nothing; a token request first runs the session lookup, so the user table and the response's cookies become those of `Auth.SessionSpec` and a rejected lookup is 400 with its message; then `BeforeGenerateToken` decides, 400 with its error or 200 with the token; a token request writes none of the upload tables; a completion writes the tables of `UploadCompleted` and answers 400 with its error or 200 |
| Http.Response.SetHeader | src/server/downloads.ts:85 | that header is replaced and nothing else changes |
| Http.Response.StatusSend | src/server/downloads.ts:33 | the status and the text body are set; the headers are kept |
| Http.Response.Pipe | src/server/downloads.ts:106 | the body becomes the piped file; status and headers are kept |

## Left out

- I/O is not modelled. This covers Express routing, the raw-body capture, response streaming and its `error` handler (src/server/downloads.ts:96-106), and the final `res.json`/`send` serialisation.
- The foreign services are parameters, not models: the payment processor, the e-mail service (and rendering of the receipt HTML), the identity provider, the blob store's `handleUpload` token signing and callback verification, and `fetch`.
- HMAC-SHA256, UTF-8 and JSON are abstract functions with stated laws. `trim` removes every ECMAScript white-space and line-terminator character; `toLowerCase` maps only `A`-`Z`, so the lower-casing of other letters is not modelled.
- `new URL('get-session', base)` is concatenation of the base (given its trailing `/`) and `get-session`; URL parsing and normalisation are not modelled.
- Prices are `real`, not IEEE doubles; `Number.isFinite` and the "Invalid product price." path (src/trpc/admin-router.ts:58-63) are not modelled, since every real is finite.
- The database is sequential: a request runs to completion before the next. The webhook's read-then-write of `isPaid` (src/webhooks.ts:147-150) is not atomic in the code, and the model claims no atomicity.
- The order of rows that tie on their sort key, and of queries without `orderBy`, is table order here. The database does not promise it.
- `updatedAt` and other database-managed timestamps are not modelled. `createdAt` is an integer.
- The defaults the database schema gives a `ProductImage.sortOrder` and a new row are assumed: 0, `PENDING`, no remote ids. The schema is not part of this model.
- Foreign-key checks on a completion row's `userId` are not modelled. The product reference of an image link or file repointing is checked, as the code relies on.
- src/config is not part of this model. The configured product categories are a parameter of the validators.
- src/lib/validators/query-validator.ts is not part of this model. `sort` is `asc`/`desc` and `category` an optional string.
- ProductValidator.ProductIssues: lengths are counted in characters, not UTF-16 code units. The order and wording of zod's issues beyond the messages the code sets are not modelled; a schema failure is `BAD_REQUEST` without a message.
- ProductValidator.UpdateIssues: the UUID rule is the `8-4-4-4-12` hexadecimal shape; any version and variant checks zod adds are not modelled.
- Catalogue.GetInfiniteProducts: `limit` and `cursor` are integers; zod accepts any number there. A negative `skip` is an `INTERNAL_SERVER_ERROR` without the database's message.
- Downloads.DownloadHandler: a session lookup that rejects ends the model's handler with the error and nothing sent, as the unhandled rejection does; a rejected `fetch` (network error) is not modelled; Express's default headers are not modelled.
- BlobUpload.BlobUploadHandler: the 200 reply carries the callback's result, not the storage client's signed token. The reply is returned as a value; only the session lookup's cookie headers are written to the response.
- BlobUpload.UploadCompleted: a database error's message is a placeholder, not the database client's text. The same placeholder stands for the error `BeforeGenerateToken` gets when a truthy `productId` is not a string.
- BlobUpload.BlobUploadHandler: `UploadBody` has no case for a body whose `type` the storage client does not know, so that reply of `handleUpload` is not modelled.
- Db.Store: the schema's unique constraints are not a class invariant of the store; the lemmas that need them (`Auth.SyncKeepsValid`) take them as hypotheses.
- `getServerSideAuth` (src/lib/auth.ts:113-124) is left out: it reads the session through a framework call that is not part of this model. It would only compose that call with `Auth.Sync`.
- `getAuthSessionFromHeaders` (src/lib/auth.ts:154-173) is left out as a separate member. It is `GetAuthSessionFromRequest` without the response, and so without the cookie refresh.
- `Http.Response` models only the status, the header map and the body set by the handlers.
