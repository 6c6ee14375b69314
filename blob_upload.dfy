/** Uploads to blob storage (src/server/blob-upload.ts). The storage
    service's client library calls back twice: before it issues an upload
    token (`onBeforeGenerateToken`: who may upload what) and once the upload
    is done (`onUploadCompleted`: the rows that record it). The library's
    own work (signing tokens, checking callbacks) is not modelled; JSON is
    the parameter `parse`. The handler looks the session up with
    `Auth.GetAuthSessionFromRequest`, whose provider endpoint is a
    parameter. */
module BlobUpload {
  import opened Wrappers
  import opened Db
  import Text
  import Http
  import Auth
  import NS = NeonSession

  /** A property of a parsed JSON object: missing, `null`, a string, or any
      other value, of which only its truthiness matters. */
  datatype Value = Absent | Null | VStr(s: string) | VOther(truthy: bool)

  predicate Truthy(v: Value) {
    match v
    case Absent => false
    case Null => false
    case VStr(s) => s != ""
    case VOther(b) => b
  }

  /** `v ?? d`. */
  function Nullish(v: Value, d: Value): (r: Value)
    ensures v.Absent? || v.Null? ==> r == d
    ensures !(v.Absent? || v.Null?) ==> r == v
  {
    if v.Absent? || v.Null? then d else v
  }

  /** `UploadIntent`, as read from a parsed payload. */
  datatype UploadIntent = UploadIntent(kind: Value, productId: Value, userId: Value, pathname: Value)

  /** A parsed payload: an object (any value other than `null` reads like
      one; a number or a string has none of these properties), or `null`. */
  datatype Parsed = IntentObject(intent: UploadIntent) | NullIntent

  const EmptyIntent: UploadIntent := UploadIntent(Absent, Absent, Absent, Absent)

  /** `parsePayload`: `{}` without a payload or when parsing throws (`parse`
      yields `None`). */
  function ParsePayload(payload: Option<string>, parse: string -> Option<Parsed>): (r: Parsed)
    ensures !Present(payload) ==> r == IntentObject(EmptyIntent)
    ensures Present(payload) && parse(payload.value).None? ==> r == IntentObject(EmptyIntent)
    ensures Present(payload) && parse(payload.value).Some? ==> r == parse(payload.value).value
  {
    if !Present(payload) then IntentObject(EmptyIntent)
    else match parse(payload.value)
      case None => IntentObject(EmptyIntent)
      case Some(p) => p
  }

  const MediaKind: Value := VStr("media")
  const ProductFileKind: Value := VStr("product-file")

  /** The messages of the errors the callbacks throw. Reading a property of
      `null` is a `TypeError`; a database call that rejects its arguments or
      finds no row throws the database client's error, whose text is not
      modelled. */
  const Unauthorized: string := "Unauthorized"
  const Forbidden: string := "Forbidden"
  function NullRead(property: string): string {
    "Cannot read properties of null (reading '" + property + "')"
  }
  const DatabaseError: string := "database error"

  /** The JSON `tokenPayload` carries, before `JSON.stringify`. */
  datatype TokenIntent = TokenIntent(kind: Value, productId: Value, userId: string, pathname: string)

  /** What `onBeforeGenerateToken` returns; `allowedContentTypes` is `None`
      for `undefined`. */
  datatype TokenOptions = TokenOptions(allowedContentTypes: Option<seq<string>>, addRandomSuffix: bool,
                                       tokenPayload: TokenIntent)

  /** `onBeforeGenerateToken`, for the session's `user`. */
  function BeforeGenerateToken(user: Option<User>, products: seq<Product>, pathname: string,
                               clientPayload: Option<string>, parse: string -> Option<Parsed>)
    : (r: Result<TokenOptions, string>)
    ensures user.None? ==> r == Err(Unauthorized)
    ensures r.Ok? ==> user.Some? && r.value.tokenPayload.userId == user.value.id && r.value.tokenPayload.pathname == pathname
    ensures r.Ok? ==> r.value.addRandomSuffix
    ensures r.Ok? ==> (r.value.allowedContentTypes == Some(["image/*"]) <==> r.value.tokenPayload.kind == MediaKind)
    ensures r.Ok? && r.value.allowedContentTypes.Some? ==> r.value.allowedContentTypes.value == ["image/*"]
  {
    if user.None? then Err(Unauthorized)
    else match ParsePayload(clientPayload, parse)
      case NullIntent => Err(NullRead("kind"))
      case IntentObject(payload) =>
        var kind := Nullish(payload.kind, MediaKind);
        if Truthy(payload.productId) && !payload.productId.VStr? then Err(DatabaseError)
        else if Truthy(payload.productId) && FindOwned(products, payload.productId.s, user.value.id).None? then Err(Forbidden)
        else
          Ok(TokenOptions(
            if kind == MediaKind then Some(["image/*"]) else None,
            true,
            TokenIntent(kind, Nullish(payload.productId, Null), user.value.id, pathname)))
  }

  /** A token is issued only to a signed-in caller, and only for a product
      the caller owns; it records the kind (`media` by default) and the
      product, or `null`. */
  lemma TokenRules(user: Option<User>, products: seq<Product>, pathname: string,
                   clientPayload: Option<string>, parse: string -> Option<Parsed>)
    requires ParsePayload(clientPayload, parse).IntentObject?
    ensures var payload := ParsePayload(clientPayload, parse).intent;
      var r := BeforeGenerateToken(user, products, pathname, clientPayload, parse);
      && ((user.Some? && payload.productId.VStr? && payload.productId.s != ""
            && FindOwned(products, payload.productId.s, user.value.id).None?) ==> r == Err(Forbidden))
      && (r.Ok? ==>
            && r.value.tokenPayload.kind == Nullish(payload.kind, MediaKind)
            && r.value.tokenPayload.productId == Nullish(payload.productId, Null)
            && (Truthy(payload.productId) ==>
                  exists k :: 0 <= k < |products| && products[k].id == payload.productId.s
                              && products[k].userId == user.value.id))
      && (user.Some? && !Truthy(payload.productId) ==> r.Ok?)
  {
  }

  /** What the storage service reports of a finished upload. */
  datatype Blob = Blob(url: string, pathname: string, contentType: Option<string>)

  /** The four tables an upload can write, and the error thrown, if any. */
  datatype Tables = Tables(media: seq<Media>, productImages: seq<ProductImage>, productFiles: seq<ProductFile>,
                           products: seq<Product>)

  datatype Completion = Completion(error: Option<string>, tables: Tables)

  /** `blob.pathname.split('/').pop() ?? blob.pathname`; `split` always
      yields a last piece, so the fallback is never used. */
  function StoredFilename(pathname: string): string {
    Text.LastPiece(pathname, '/')
  }

  /** `onUploadCompleted`; `freshId` and `freshLinkId` are the ids the
      database gives a new row. The rows are written one by one, with no
      transaction: a later failure keeps the earlier rows. */
  function UploadCompleted(t: Tables, blob: Blob, tokenPayload: Option<string>, parse: string -> Option<Parsed>,
                           freshId: string, freshLinkId: string): Completion
  {
    match ParsePayload(tokenPayload, parse)
    case NullIntent => Completion(Some(NullRead("userId")), t)
    case IntentObject(payload) =>
      if !Truthy(payload.userId) then Completion(None, t)
      else
        var filename := StoredFilename(blob.pathname);
        var kind := Nullish(payload.kind, MediaKind);
        if (kind == MediaKind || kind == ProductFileKind) && !payload.userId.VStr? then Completion(Some(DatabaseError), t)
        else if kind == MediaKind then
          var userId := payload.userId.s;
          var m := Media(freshId, userId, Some(blob.url), Some(filename), blob.contentType, None, None);
          var t1 := t.(media := t.media + [m]);
          if !Truthy(payload.productId) then Completion(None, t1)
          else if !payload.productId.VStr? || Find(t.products, ProductKey, payload.productId.s).None? then
            Completion(Some(DatabaseError), t1)
          else Completion(None, t1.(productImages := t.productImages + [ProductImage(freshLinkId, payload.productId.s, freshId, 0)]))
        else if kind == ProductFileKind then
          var userId := payload.userId.s;
          var f := ProductFile(freshId, userId, Some(blob.url), Some(filename), blob.contentType);
          var t1 := t.(productFiles := t.productFiles + [f]);
          if !Truthy(payload.productId) then Completion(None, t1)
          else if !payload.productId.VStr? then Completion(Some(DatabaseError), t1)
          else match Find(t.products, ProductKey, payload.productId.s)
            case None => Completion(Some(DatabaseError), t1)
            case Some(i) => Completion(None, t1.(products := t.products[i := t.products[i].(productFileId := Some(freshId))]))
        else Completion(None, t)
  }

  /** A completion whose payload names no user writes nothing. */
  lemma NoUserNoChange(t: Tables, blob: Blob, tokenPayload: Option<string>, parse: string -> Option<Parsed>,
                       freshId: string, freshLinkId: string)
    requires ParsePayload(tokenPayload, parse).IntentObject?
    requires !Truthy(ParsePayload(tokenPayload, parse).intent.userId)
    ensures UploadCompleted(t, blob, tokenPayload, parse, freshId, freshLinkId) == Completion(None, t)
  {
  }

  /** The stored filename is the text after the last `/` of the pathname:
      a suffix of it with no `/`. */
  lemma StoredFilenameIsLastSegment(pathname: string)
    ensures '/' !in StoredFilename(pathname)
    ensures |StoredFilename(pathname)| <= |pathname|
    ensures StoredFilename(pathname) == pathname[|pathname| - |StoredFilename(pathname)|..]
    ensures |StoredFilename(pathname)| < |pathname| ==> pathname[|pathname| - |StoredFilename(pathname)| - 1] == '/'
  {
    Text.LastPieceIsSuffix(pathname, '/');
  }

  /** The intent of a completion that names a user, by string. */
  predicate Named(p: Parsed) {
    p.IntentObject? && p.intent.userId.VStr? && p.intent.userId.s != ""
  }

  /** A media upload adds one media row of the user, with the blob's url,
      filename and type, and an image link to the product when one is named
      and exists; the product files and products are untouched. */
  lemma MediaCompletion(t: Tables, blob: Blob, tokenPayload: Option<string>, parse: string -> Option<Parsed>,
                        freshId: string, freshLinkId: string)
    requires Named(ParsePayload(tokenPayload, parse))
    requires Nullish(ParsePayload(tokenPayload, parse).intent.kind, MediaKind) == MediaKind
    ensures var c := UploadCompleted(t, blob, tokenPayload, parse, freshId, freshLinkId);
      var payload := ParsePayload(tokenPayload, parse).intent;
      && c.tables.media == t.media + [Media(freshId, payload.userId.s, Some(blob.url), Some(StoredFilename(blob.pathname)),
                                             blob.contentType, None, None)]
      && c.tables.productFiles == t.productFiles && c.tables.products == t.products
      && (c.error.None? && Truthy(payload.productId) ==>
            && payload.productId.VStr? && Find(t.products, ProductKey, payload.productId.s).Some?
            && c.tables.productImages == t.productImages + [ProductImage(freshLinkId, payload.productId.s, freshId, 0)])
      && (c.error.Some? ==> Truthy(payload.productId) && c.tables.productImages == t.productImages)
      && (!Truthy(payload.productId) ==> c.error.None? && c.tables.productImages == t.productImages)
  {
  }

  /** A product-file upload adds one file row of the user and, when a
      product is named, repoints that product's `productFileId` to it and
      changes nothing else of the product table; the media tables are
      untouched. */
  lemma ProductFileCompletion(t: Tables, blob: Blob, tokenPayload: Option<string>, parse: string -> Option<Parsed>,
                              freshId: string, freshLinkId: string)
    requires Named(ParsePayload(tokenPayload, parse))
    requires Nullish(ParsePayload(tokenPayload, parse).intent.kind, MediaKind) == ProductFileKind
    ensures var c := UploadCompleted(t, blob, tokenPayload, parse, freshId, freshLinkId);
      var payload := ParsePayload(tokenPayload, parse).intent;
      && c.tables.productFiles == t.productFiles + [ProductFile(freshId, payload.userId.s, Some(blob.url),
                                                                 Some(StoredFilename(blob.pathname)), blob.contentType)]
      && c.tables.media == t.media && c.tables.productImages == t.productImages
      && |c.tables.products| == |t.products|
      && (c.error.None? && Truthy(payload.productId) ==>
            var i := Find(t.products, ProductKey, payload.productId.s);
            && i.Some?
            && c.tables.products[i.value] == t.products[i.value].(productFileId := Some(freshId))
            && forall k :: 0 <= k < |t.products| && k != i.value ==> c.tables.products[k] == t.products[k])
      && (c.error.Some? || !Truthy(payload.productId) ==> c.tables.products == t.products)
  {
  }

  /** A user id that is not a string makes the first write of a media or
      product-file upload fail, so nothing is written. */
  lemma NonStringUserFails(t: Tables, blob: Blob, tokenPayload: Option<string>, parse: string -> Option<Parsed>,
                           freshId: string, freshLinkId: string)
    requires ParsePayload(tokenPayload, parse).IntentObject?
    requires Truthy(ParsePayload(tokenPayload, parse).intent.userId)
    requires !ParsePayload(tokenPayload, parse).intent.userId.VStr?
    requires Nullish(ParsePayload(tokenPayload, parse).intent.kind, MediaKind) in {MediaKind, ProductFileKind}
    ensures UploadCompleted(t, blob, tokenPayload, parse, freshId, freshLinkId) == Completion(Some(DatabaseError), t)
  {
  }

  /** Any other kind writes nothing, whatever the user id is. */
  lemma OtherKindNoChange(t: Tables, blob: Blob, tokenPayload: Option<string>, parse: string -> Option<Parsed>,
                          freshId: string, freshLinkId: string)
    requires ParsePayload(tokenPayload, parse).IntentObject?
    requires Nullish(ParsePayload(tokenPayload, parse).intent.kind, MediaKind) != MediaKind
    requires Nullish(ParsePayload(tokenPayload, parse).intent.kind, MediaKind) != ProductFileKind
    ensures UploadCompleted(t, blob, tokenPayload, parse, freshId, freshLinkId) == Completion(None, t)
  {
  }

  /** The JSON round trip of a token payload whose kind and product are
      defined: parsing its JSON text gives back its kind, its product, its
      user and its pathname. */
  ghost predicate Lawful(stringify: TokenIntent -> string, parse: string -> Option<Parsed>) {
    forall i: TokenIntent :: (!i.kind.Absent? && !i.productId.Absent?) ==>
      parse(stringify(i)) == Some(IntentObject(UploadIntent(i.kind, i.productId, VStr(i.userId), VStr(i.pathname))))
      && stringify(i) != ""
  }

  /** A completion for a token issued by `onBeforeGenerateToken` writes rows of the user the token was issued to, and its
      image link or repointing, if any, is to a product that user owned when
      the token was issued. */
  lemma CompletionOfIssuedToken(user: User, products: seq<Product>, pathname: string, clientPayload: Option<string>,
                                stringify: TokenIntent -> string, parse: string -> Option<Parsed>,
                                t: Tables, blob: Blob, freshId: string, freshLinkId: string)
    requires Lawful(stringify, parse)
    requires user.id != ""
    requires BeforeGenerateToken(Some(user), products, pathname, clientPayload, parse).Ok?
    requires t.products == products
    ensures var intent := BeforeGenerateToken(Some(user), products, pathname, clientPayload, parse).value.tokenPayload;
      var c := UploadCompleted(t, blob, Some(stringify(intent)), parse, freshId, freshLinkId);
      && (|c.tables.media| > |t.media| ==> c.tables.media[|t.media|].userId == user.id)
      && (|c.tables.productFiles| > |t.productFiles| ==> c.tables.productFiles[|t.productFiles|].userId == user.id)
      && (|c.tables.productImages| > |t.productImages| ==>
            exists k :: 0 <= k < |products| && products[k].id == c.tables.productImages[|t.productImages|].productId
                        && products[k].userId == user.id)
      && (c.tables.products != t.products ==>
            && intent.productId.VStr?
            && exists k :: 0 <= k < |products| && products[k].id == intent.productId.s && products[k].userId == user.id)
  {
    var intent := BeforeGenerateToken(Some(user), products, pathname, clientPayload, parse).value.tokenPayload;
    var payload := ParsePayload(clientPayload, parse).intent;
    TokenRules(Some(user), products, pathname, clientPayload, parse);
    assert !intent.kind.Absent? && !intent.productId.Absent?;
    assert ParsePayload(Some(stringify(intent)), parse)
        == IntentObject(UploadIntent(intent.kind, intent.productId, VStr(user.id), VStr(pathname)));
  }

  /** The request body the storage service's client library sends. */
  datatype UploadBody =
    | NoBody
    | NotAnObject
    | GenerateClientToken(pathname: string, clientPayload: Option<string>)
    | UploadFinished(blob: Blob, tokenPayload: Option<string>)

  datatype ReplyBody = ErrorBody(error: string) | TokenBody(options: TokenOptions) | CompletedBody

  datatype Reply = Reply(status: int, body: ReplyBody)

  /** `onUploadCompleted` on the database. */
  method OnUploadCompleted(db: Store, blob: Blob, tokenPayload: Option<string>, parse: string -> Option<Parsed>,
                           freshId: string, freshLinkId: string)
    returns (error: Option<string>)
    modifies db
    ensures Completion(error, Tables(db.media, db.productImages, db.productFiles, db.products))
         == UploadCompleted(Tables(old(db.media), old(db.productImages), old(db.productFiles), old(db.products)),
                            blob, tokenPayload, parse, freshId, freshLinkId)
    ensures db.users == old(db.users) && db.orders == old(db.orders)
  {
    var parsed := ParsePayload(tokenPayload, parse);
    if parsed.NullIntent? {
      return Some(NullRead("userId"));
    }
    var payload := parsed.intent;
    if !Truthy(payload.userId) {
      return None;
    }
    var filename := StoredFilename(blob.pathname);
    var kind := Nullish(payload.kind, MediaKind);

    if kind == MediaKind {
      if !payload.userId.VStr? {
        return Some(DatabaseError);
      }
      var media := Media(freshId, payload.userId.s, Some(blob.url), Some(filename), blob.contentType, None, None);
      db.media := db.media + [media];
      if Truthy(payload.productId) {
        if !payload.productId.VStr? || Find(db.products, ProductKey, payload.productId.s).None? {
          return Some(DatabaseError);
        }
        db.productImages := db.productImages + [ProductImage(freshLinkId, payload.productId.s, media.id, 0)];
      }
    }

    if kind == ProductFileKind {
      if !payload.userId.VStr? {
        return Some(DatabaseError);
      }
      var productFile := ProductFile(freshId, payload.userId.s, Some(blob.url), Some(filename), blob.contentType);
      db.productFiles := db.productFiles + [productFile];
      if Truthy(payload.productId) {
        if !payload.productId.VStr? {
          return Some(DatabaseError);
        }
        var found := Find(db.products, ProductKey, payload.productId.s);
        if found.None? {
          return Some(DatabaseError);
        }
        var i := found.value;
        db.products := db.products[i := db.products[i].(productFileId := Some(productFile.id))];
      }
    }
    return None;
  }

  /** `blobUploadHandler`: the body check, then the callback the body asks
      for; any error thrown becomes a 400 with its message. A token request
      first looks the session up, as in `Auth.GetAuthSessionFromRequest`: that
      refreshes the response's cookies and syncs the user table. The reply is
      returned; only the cookie headers are written to `res`. */
  method BlobUploadHandler(db: Store, res: Http.Response, body: UploadBody, baseUrlEnv: Option<string>,
                           cookieHeader: Option<string>, origin: string, remote: NS.SessionRequest -> NS.SessionResponse,
                           freshUserId: string, parse: string -> Option<Parsed>, freshId: string, freshLinkId: string)
    returns (reply: Reply)
    modifies db, res
    ensures db.orders == old(db.orders) && res.status == old(res.status) && res.body == old(res.body)
    ensures body.NoBody? || body.NotAnObject? ==>
      && reply == Reply(400, ErrorBody("Missing upload payload"))
      && db.media == old(db.media) && db.products == old(db.products)
      && db.productFiles == old(db.productFiles) && db.productImages == old(db.productImages)
      && db.users == old(db.users) && res.headers == old(res.headers)
    ensures body.GenerateClientToken? ==>
      var e := Auth.SessionSpec(old(db.users), baseUrlEnv, cookieHeader, origin, remote, freshUserId);
      && db.users == e.users
      && res.headers == Auth.WithCookies(old(res.headers), e.setCookie)
      && db.media == old(db.media) && db.products == old(db.products)
      && db.productFiles == old(db.productFiles) && db.productImages == old(db.productImages)
      && reply == match e.result
                  case Err(m) => Reply(400, ErrorBody(m))
                  case Ok(state) =>
                    match BeforeGenerateToken(state.user, old(db.products), body.pathname, body.clientPayload, parse)
                    case Err(m) => Reply(400, ErrorBody(m))
                    case Ok(options) => Reply(200, TokenBody(options))
    ensures body.UploadFinished? ==>
      var c := UploadCompleted(Tables(old(db.media), old(db.productImages), old(db.productFiles), old(db.products)),
                               body.blob, body.tokenPayload, parse, freshId, freshLinkId);
      && Tables(db.media, db.productImages, db.productFiles, db.products) == c.tables
      && reply == (if c.error.Some? then Reply(400, ErrorBody(c.error.value)) else Reply(200, CompletedBody))
      && db.users == old(db.users) && res.headers == old(res.headers)
  {
    match body
    case NoBody =>
      return Reply(400, ErrorBody("Missing upload payload"));
    case NotAnObject =>
      return Reply(400, ErrorBody("Missing upload payload"));
    case GenerateClientToken(pathname, clientPayload) =>
      var session := Auth.GetAuthSessionFromRequest(db, res, baseUrlEnv, cookieHeader, origin, remote, freshUserId);
      if session.Err? {
        return Reply(400, ErrorBody(session.error));
      }
      var token := BeforeGenerateToken(session.value.user, db.products, pathname, clientPayload, parse);
      if token.Err? {
        return Reply(400, ErrorBody(token.error));
      }
      return Reply(200, TokenBody(token.value));
    case UploadFinished(blob, tokenPayload) =>
      var error := OnUploadCompleted(db, blob, tokenPayload, parse, freshId, freshLinkId);
      if error.Some? {
        return Reply(400, ErrorBody(error.value));
      }
      return Reply(200, CompletedBody);
  }
}
