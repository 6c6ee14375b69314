/** The file download route (src/server/downloads.ts): a valid download
    token for the product, or else a signed-in user with a paid order that
    contains it, grants access; then the product's file must exist, and the
    blob store must answer with a body, which is streamed back with a
    sanitised filename. The clock, the secret, the identity provider's
    session endpoint and the upstream fetch are parameters. */
module Downloads {
  import opened Wrappers
  import opened Db
  import DT = DownloadTokens
  import Http
  import Auth
  import NS = NeonSession

  /** The characters `[a-zA-Z0-9._-]` that file names keep. */
  predicate AllowedChar(c: char) {
    ('a' <= c <= 'z') || ('A' <= c <= 'Z') || ('0' <= c <= '9') || c == '.' || c == '_' || c == '-'
  }

  /** `sanitizeFilename`: every character outside the allowed set becomes
      `-`; the length and every allowed character are kept. */
  function SanitizeFilename(s: string): (r: string)
    ensures |r| == |s|
    ensures forall k :: 0 <= k < |s| ==> r[k] == if AllowedChar(s[k]) then s[k] else '-'
  {
    if s == [] then []
    else [if AllowedChar(s[0]) then s[0] else '-'] + SanitizeFilename(s[1..])
  }

  lemma SanitizedIsAllowed(s: string)
    ensures forall k :: 0 <= k < |s| ==> AllowedChar(SanitizeFilename(s)[k])
  {
  }

  /** A name made only of allowed characters is left as it is. */
  lemma SanitizeKeepsAllowed(s: string)
    requires forall k :: 0 <= k < |s| ==> AllowedChar(s[k])
    ensures SanitizeFilename(s) == s
  {
  }

  lemma SanitizeIdempotent(s: string)
    ensures SanitizeFilename(SanitizeFilename(s)) == SanitizeFilename(s)
  {
    SanitizedIsAllowed(s);
    SanitizeKeepsAllowed(SanitizeFilename(s));
  }

  /** The `token` query parameter: absent, a string, or something else
      (an array or an object, as a repeated or bracketed parameter gives). */
  datatype QueryValue = Absent | QueryString(s: string) | QueryOther

  /** What the blob store answers for a file URL. */
  datatype Upstream = Upstream(ok: bool, hasBody: bool, contentType: Option<string>, contentLength: Option<string>)

  datatype Outcome =
    | Refused(status: int, message: string)
    /** Stream the file at `url` with these headers, in the order they are set. */
    | Serve(headers: seq<(string, seq<string>)>, url: string)

  /** The token as a string; any other kind of value counts as absent. */
  function TokenOf(q: QueryValue): (t: Option<string>)
    ensures t.Some? <==> q.QueryString?
  {
    if q.QueryString? then Some(q.s) else None
  }

  /** `tokenPayload?.productId === productId`: a token is only read when it is
      a non-empty string, and it grants access to the product it names,
      whoever it was minted for. */
  predicate TokenGrants(p: DT.Primitives, secretEnv: Option<string>, now: int, q: QueryValue, productId: string) {
    var token := TokenOf(q);
    && Present(token)
    && var payload := DT.VerifyDownloadToken(p, secretEnv, now, token.value);
       payload.Some? && payload.value.productId == DT.Str(productId)
  }

  predicate PaidFor(o: Order, userId: string, productId: string) {
    o.userId == userId && o.isPaid && exists j :: 0 <= j < |o.items| && o.items[j].productId == productId
  }

  /** Some order of the user is paid and has an item for the product. */
  predicate HasPaidOrder(orders: seq<Order>, userId: string, productId: string) {
    exists k :: 0 <= k < |orders| && PaidFor(orders[k], userId, productId)
  }

  /** Access is granted by a token, or by a signed-in user's paid order. */
  predicate Entitled(p: DT.Primitives, secretEnv: Option<string>, now: int, q: QueryValue, productId: string,
                     sessionUser: Option<User>, orders: seq<Order>) {
    TokenGrants(p, secretEnv, now, q, productId)
    || (sessionUser.Some? && HasPaidOrder(orders, sessionUser.value.id, productId))
  }

  /** The product's file row, when the product and its file exist. */
  function FileOf(products: seq<Product>, files: seq<ProductFile>, productId: string): (r: Option<(Product, ProductFile)>)
    ensures r.Some? ==> r.value.0.id == productId && r.value.0.productFileId == Some(r.value.1.id)
    ensures r.Some? ==> r.value.0 in products && r.value.1 in files
  {
    match Find(products, ProductKey, productId)
    case None => None
    case Some(i) =>
      if products[i].productFileId.None? then None
      else
        match Find(files, FileKey, products[i].productFileId.value)
        case None => None
        case Some(j) => Some((products[i], files[j]))
  }

  /** `file.filename ?? \`${name}.zip\``, sanitised. */
  function DownloadName(product: Product, file: ProductFile): string {
    SanitizeFilename(file.filename.GetOr(product.name + ".zip"))
  }

  /** The upstream content type, else the stored MIME type, else
      `application/octet-stream`. */
  function ContentType(upstream: Upstream, file: ProductFile): string {
    OrElse(upstream.contentType, OrElse(file.mimeType, Some("application/octet-stream"))).value
  }

  function ResponseHeaders(product: Product, file: ProductFile, upstream: Upstream): seq<(string, seq<string>)> {
    [("Content-Type", [ContentType(upstream, file)]),
     ("Content-Disposition", ["attachment; filename=\"" + DownloadName(product, file) + "\""]),
     ("Cache-Control", ["no-store"])]
    + if Present(upstream.contentLength) then [("Content-Length", [upstream.contentLength.value])] else []
  }

  /** What `downloadHandler` does, as a value. `sessionUser` is the user the
      session lookup yields; it is only consulted without a valid token. */
  function Decide(p: DT.Primitives, secretEnv: Option<string>, now: int, productId: string, q: QueryValue,
                  sessionUser: Option<User>, orders: seq<Order>, products: seq<Product>, files: seq<ProductFile>,
                  fetch: string -> Upstream): (r: Outcome)
    ensures r.Serve? ==> Entitled(p, secretEnv, now, q, productId, sessionUser, orders)
  {
    if TokenGrants(p, secretEnv, now, q, productId) then Delivery(products, files, productId, fetch)
    else Checked(sessionUser, orders, products, files, productId, fetch)
  }

  /** Without a valid token: 401 without a session user, 403 without a paid
      order for the product, else the delivery. */
  function Checked(sessionUser: Option<User>, orders: seq<Order>, products: seq<Product>, files: seq<ProductFile>,
                   productId: string, fetch: string -> Upstream): Outcome {
    if sessionUser.None? then Refused(401, "Unauthorized")
    else if !HasPaidOrder(orders, sessionUser.value.id, productId) then Refused(403, "Forbidden")
    else Delivery(products, files, productId, fetch)
  }

  /** What an entitled request gets: 404 without a file URL, 502 when the
      blob store does not deliver, else the file. */
  function Delivery(products: seq<Product>, files: seq<ProductFile>, productId: string, fetch: string -> Upstream): Outcome {
    match FileOf(products, files, productId)
    case None => Refused(404, "Not Found")
    case Some((product, file)) =>
      if !Present(file.url) then Refused(404, "Not Found")
      else
        var upstream := fetch(file.url.value);
        if !upstream.ok || !upstream.hasBody then Refused(502, "Download unavailable")
        else Serve(ResponseHeaders(product, file, upstream), file.url.value)
  }

  /** Without a valid token, an anonymous request is refused with 401. */
  lemma AnonymousRefused(p: DT.Primitives, secretEnv: Option<string>, now: int, productId: string, q: QueryValue,
                         orders: seq<Order>, products: seq<Product>, files: seq<ProductFile>, fetch: string -> Upstream)
    requires !TokenGrants(p, secretEnv, now, q, productId)
    ensures Decide(p, secretEnv, now, productId, q, None, orders, products, files, fetch) == Refused(401, "Unauthorized")
  {
  }

  /** Without a valid token, a user with no paid order for the product is
      refused with 403, whether or not the product exists. */
  lemma UnpaidRefused(p: DT.Primitives, secretEnv: Option<string>, now: int, productId: string, q: QueryValue,
                      user: User, orders: seq<Order>, products: seq<Product>, files: seq<ProductFile>, fetch: string -> Upstream)
    requires !TokenGrants(p, secretEnv, now, q, productId)
    requires forall k :: 0 <= k < |orders| ==> !PaidFor(orders[k], user.id, productId)
    ensures Decide(p, secretEnv, now, productId, q, Some(user), orders, products, files, fetch) == Refused(403, "Forbidden")
  {
  }

  /** Entitlement is decided before existence: every answer other than 401
      and 403 is given only to an entitled request, and an entitled request
      never gets 401 or 403. */
  lemma EntitlementFirst(p: DT.Primitives, secretEnv: Option<string>, now: int, productId: string, q: QueryValue,
                         sessionUser: Option<User>, orders: seq<Order>, products: seq<Product>, files: seq<ProductFile>,
                         fetch: string -> Upstream)
    ensures var r := Decide(p, secretEnv, now, productId, q, sessionUser, orders, products, files, fetch);
      (Entitled(p, secretEnv, now, q, productId, sessionUser, orders) <==> !(r.Refused? && (r.status == 401 || r.status == 403)))
  {
  }

  /** An entitled request for a product without a stored file URL gets 404. */
  lemma MissingFileNotFound(p: DT.Primitives, secretEnv: Option<string>, now: int, productId: string, q: QueryValue,
                            sessionUser: Option<User>, orders: seq<Order>, products: seq<Product>, files: seq<ProductFile>,
                            fetch: string -> Upstream)
    requires Entitled(p, secretEnv, now, q, productId, sessionUser, orders)
    requires FileOf(products, files, productId).None? || !Present(FileOf(products, files, productId).value.1.url)
    ensures Decide(p, secretEnv, now, productId, q, sessionUser, orders, products, files, fetch) == Refused(404, "Not Found")
  {
  }

  /** An entitled request whose file the blob store does not deliver gets 502;
      one it delivers is served from the stored URL with the chosen headers. */
  lemma UpstreamDecides(p: DT.Primitives, secretEnv: Option<string>, now: int, productId: string, q: QueryValue,
                        sessionUser: Option<User>, orders: seq<Order>, products: seq<Product>, files: seq<ProductFile>,
                        fetch: string -> Upstream)
    requires Entitled(p, secretEnv, now, q, productId, sessionUser, orders)
    requires FileOf(products, files, productId).Some? && Present(FileOf(products, files, productId).value.1.url)
    ensures
      var (product, file) := FileOf(products, files, productId).value;
      var upstream := fetch(file.url.value);
      var r := Decide(p, secretEnv, now, productId, q, sessionUser, orders, products, files, fetch);
      && (!upstream.ok || !upstream.hasBody ==> r == Refused(502, "Download unavailable"))
      && (upstream.ok && upstream.hasBody ==> r == Serve(ResponseHeaders(product, file, upstream), file.url.value))
  {
  }

  /** A token that is not a non-empty string is the same as no token. */
  lemma NonStringTokenIgnored(p: DT.Primitives, secretEnv: Option<string>, now: int, productId: string,
                              sessionUser: Option<User>, orders: seq<Order>, products: seq<Product>, files: seq<ProductFile>,
                              fetch: string -> Upstream)
    ensures Decide(p, secretEnv, now, productId, QueryOther, sessionUser, orders, products, files, fetch)
         == Decide(p, secretEnv, now, productId, Absent, sessionUser, orders, products, files, fetch)
    ensures Decide(p, secretEnv, now, productId, QueryString(""), sessionUser, orders, products, files, fetch)
         == Decide(p, secretEnv, now, productId, Absent, sessionUser, orders, products, files, fetch)
  {
  }

  /** A token minted for any user and this product, used before it expires,
      passes the access checks without a session and without any order:
      the token's user is never compared with anyone. */
  lemma MintedTokenGrants(p: DT.Primitives, secretEnv: Option<string>, mintedAt: int, now: int, tokenUser: string,
                          productId: string, ttl: int, products: seq<Product>, files: seq<ProductFile>,
                          fetch: string -> Upstream)
    requires DT.Lawful(p) && Present(secretEnv)
    requires tokenUser != "" && productId != ""
    requires now <= mintedAt + ttl * 1000
    ensures
      var token := DT.CreateDownloadToken(p, secretEnv, mintedAt, tokenUser, productId, ttl).value;
      var r := Decide(p, secretEnv, now, productId, QueryString(token), None, [], products, files, fetch);
      !(r.Refused? && (r.status == 401 || r.status == 403))
  {
    var token := DT.CreateDownloadToken(p, secretEnv, mintedAt, tokenUser, productId, ttl).value;
    DT.RoundTrip(p, secretEnv, mintedAt, now, tokenUser, productId, ttl);
    DT.MintedShape(p, secretEnv, mintedAt, tokenUser, productId, ttl);
    assert token != "";
    assert TokenGrants(p, secretEnv, now, QueryString(token), productId);
  }

  /** `headers` after setting each listed header in turn. */
  function WithHeaders(headers: map<string, seq<string>>, set_: seq<(string, seq<string>)>): map<string, seq<string>>
    decreases |set_|
  {
    if set_ == [] then headers else WithHeaders(headers[set_[0].0 := set_[0].1], set_[1..])
  }

  /** The response once the handler has answered `d`: a refusal sets the
      status and the message, a grant sets its headers over `headers0` and
      pipes the file. */
  predicate Answered(status: int, body: Http.Body, headers: map<string, seq<string>>,
                     status0: int, headers0: map<string, seq<string>>, d: Outcome) {
    match d
    case Refused(code, message) => status == code && body == Http.TextBody(message) && headers == headers0
    case Serve(set_, url) => status == status0 && body == Http.Piped(url) && headers == WithHeaders(headers0, set_)
  }

  /** `downloadHandler`, step by step on the response. With a valid token no
      session is looked up; without one the session lookup runs first: it
      applies the provider's cookies to the response and may insert or update
      the caller's user row, and when it fails the handler stops with the
      failure and sends nothing. The order and product tables are read after
      the lookup. */
  method DownloadHandler(db: Store, res: Http.Response, p: DT.Primitives, secretEnv: Option<string>, now: int,
                         productId: string, q: QueryValue, baseUrlEnv: Option<string>, cookieHeader: Option<string>,
                         origin: string, remote: NS.SessionRequest -> NS.SessionResponse, freshId: string,
                         fetch: string -> Upstream)
    returns (failure: Option<string>)
    modifies db, res
    ensures db.products == old(db.products) && db.productFiles == old(db.productFiles) && db.orders == old(db.orders)
    ensures db.media == old(db.media) && db.productImages == old(db.productImages)
    ensures TokenGrants(p, secretEnv, now, q, productId) ==>
      && failure.None? && db.users == old(db.users)
      && Answered(res.status, res.body, res.headers, old(res.status), old(res.headers),
                  Decide(p, secretEnv, now, productId, q, None, db.orders, db.products, db.productFiles, fetch))
    ensures !TokenGrants(p, secretEnv, now, q, productId) ==>
      var e := Auth.SessionSpec(old(db.users), baseUrlEnv, cookieHeader, origin, remote, freshId);
      var headers := Auth.WithCookies(old(res.headers), e.setCookie);
      && db.users == e.users
      && (e.result.Err? ==>
            failure == Some(e.result.error) && res.status == old(res.status) && res.body == old(res.body) && res.headers == headers)
      && (e.result.Ok? ==>
            failure.None?
            && Answered(res.status, res.body, res.headers, old(res.status), headers,
                        Decide(p, secretEnv, now, productId, q, e.result.value.user, db.orders, db.products, db.productFiles, fetch)))
  {
    var token := TokenOf(q);
    var payload := if Present(token) then DT.VerifyDownloadToken(p, secretEnv, now, token.value) else None;
    var tokenValid := payload.Some? && payload.value.productId == DT.Str(productId);
    assert tokenValid == TokenGrants(p, secretEnv, now, q, productId);
    if tokenValid {
      Deliver(res, db.products, db.productFiles, productId, fetch);
      failure := None;
    } else {
      failure := SessionPath(db, res, productId, baseUrlEnv, cookieHeader, origin, remote, freshId, fetch);
    }
  }

  /** Without a valid token: the session lookup, then the access checks on
      its user, then the delivery. */
  method SessionPath(db: Store, res: Http.Response, productId: string, baseUrlEnv: Option<string>,
                     cookieHeader: Option<string>, origin: string, remote: NS.SessionRequest -> NS.SessionResponse,
                     freshId: string, fetch: string -> Upstream)
    returns (failure: Option<string>)
    modifies db, res
    ensures db.products == old(db.products) && db.productFiles == old(db.productFiles) && db.orders == old(db.orders)
    ensures db.media == old(db.media) && db.productImages == old(db.productImages)
    ensures var e := Auth.SessionSpec(old(db.users), baseUrlEnv, cookieHeader, origin, remote, freshId);
      var headers := Auth.WithCookies(old(res.headers), e.setCookie);
      && db.users == e.users
      && (e.result.Err? ==>
            failure == Some(e.result.error) && res.status == old(res.status) && res.body == old(res.body) && res.headers == headers)
      && (e.result.Ok? ==>
            failure.None?
            && Answered(res.status, res.body, res.headers, old(res.status), headers,
                        Checked(e.result.value.user, db.orders, db.products, db.productFiles, productId, fetch)))
  {
    var session := Auth.GetAuthSessionFromRequest(db, res, baseUrlEnv, cookieHeader, origin, remote, freshId);
    if session.Err? {
      return Some(session.error);
    }
    var sessionUser := session.value.user;
    if sessionUser.None? {
      res.StatusSend(401, "Unauthorized");
      return None;
    }
    if !HasPaidOrder(db.orders, sessionUser.value.id, productId) {
      res.StatusSend(403, "Forbidden");
      return None;
    }
    Deliver(res, db.products, db.productFiles, productId, fetch);
    return None;
  }

  /** The file lookup and the upstream fetch, answered on the response. */
  method Deliver(res: Http.Response, products: seq<Product>, files: seq<ProductFile>, productId: string,
                 fetch: string -> Upstream)
    modifies res
    ensures Answered(res.status, res.body, res.headers, old(res.status), old(res.headers), Delivery(products, files, productId, fetch))
  {
    var found := FileOf(products, files, productId);
    if found.None? || !Present(found.value.1.url) {
      res.StatusSend(404, "Not Found");
      return;
    }
    var (product, file) := found.value;
    var upstream := fetch(file.url.value);
    if !upstream.ok || !upstream.hasBody {
      res.StatusSend(502, "Download unavailable");
      return;
    }
    ServeFile(res, product, file, upstream);
  }

  /** The success path: the headers of the download, then the upstream body
      piped to the response. */
  method ServeFile(res: Http.Response, product: Product, file: ProductFile, upstream: Upstream)
    requires Present(file.url)
    modifies res
    ensures res.status == old(res.status) && res.body == Http.Piped(file.url.value)
    ensures res.headers == WithHeaders(old(res.headers), ResponseHeaders(product, file, upstream))
  {
    var contentType := ContentType(upstream, file);
    var filename := DownloadName(product, file);
    ghost var before := res.headers;
    res.SetHeader("Content-Type", [contentType]);
    res.SetHeader("Content-Disposition", ["attachment; filename=\"" + filename + "\""]);
    res.SetHeader("Cache-Control", ["no-store"]);
    ghost var fixed := res.headers;
    if Present(upstream.contentLength) {
      res.SetHeader("Content-Length", [upstream.contentLength.value]);
    }
    res.Pipe(file.url.value);
    ghost var tail := if Present(upstream.contentLength) then [("Content-Length", [upstream.contentLength.value])] else [];
    assert res.headers == WithHeaders(fixed, tail);
    WithHeadersThree(before, ("Content-Type", [contentType]),
                     ("Content-Disposition", ["attachment; filename=\"" + filename + "\""]),
                     ("Cache-Control", ["no-store"]), tail);
  }

  lemma WithHeadersThree(h: map<string, seq<string>>, a: (string, seq<string>), b: (string, seq<string>),
                         c: (string, seq<string>), tail: seq<(string, seq<string>)>)
    ensures WithHeaders(h, [a, b, c] + tail) == WithHeaders(h[a.0 := a.1][b.0 := b.1][c.0 := c.1], tail)
  {
    var s1, s2, s3 := [a, b, c] + tail, [b, c] + tail, [c] + tail;
    assert s1[0] == a && s1[1..] == s2;
    assert s2[0] == b && s2[1..] == s3;
    assert s3[0] == c && s3[1..] == tail;
    assert WithHeaders(h, s1) == WithHeaders(h[a.0 := a.1], s2);
    assert WithHeaders(h[a.0 := a.1], s2) == WithHeaders(h[a.0 := a.1][b.0 := b.1], s3);
  }
}
