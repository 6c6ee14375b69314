/** Download tokens (src/lib/download-tokens.ts): a token is
    `base64url(json) "." base64url(HMAC-SHA256(secret, json))`, where `json`
    is the JSON text of `{userId, productId, exp}`. Tokens are not encrypted,
    only signed, and expire at `exp` (milliseconds since the epoch).

    HMAC-SHA256 (RFC 2104 over FIPS 180-4), UTF-8 and `JSON.stringify` /
    `JSON.parse` are not defined here: they are the fields of `Primitives`,
    and `Lawful` states the laws the proofs rely on. The clock and the
    `DOWNLOAD_TOKEN_SECRET` environment variable are parameters. */
module DownloadTokens {
  import opened Wrappers
  import Text
  import B = Base64Url

  /** The default lifetime of a token: two hours, in seconds. */
  const DefaultTtlSeconds: int := 60 * 60 * 2

  /** The payload `createDownloadToken` signs. */
  datatype TokenPayload = TokenPayload(userId: string, productId: string, exp: int)

  /** A property of a parsed JSON value as `verifyDownloadToken` reads it:
      a string, or any other value (absent, null, a number, an object, ...)
      of which only its truthiness matters. */
  datatype Property = Str(s: string) | NonString(truthy: bool)

  predicate Truthy(v: Property) {
    if v.Str? then v.s != "" else v.truthy
  }

  /** A parsed payload: `userId`, `productId`, and `exp` as the number the
      comparison `now > exp` converts it to (`None` for NaN). */
  datatype JsonPayload = JsonPayload(userId: Property, productId: Property, exp: Option<int>)

  /** The foreign primitives: UTF-8 both ways, HMAC-SHA256 over bytes
      (key, message), and JSON (`parse` yields `None` when it throws). */
  datatype Primitives = Primitives(
    utf8Encode: string -> seq<B.byte>,
    utf8Decode: seq<B.byte> -> string,
    hmacSha256: (seq<B.byte>, seq<B.byte>) -> seq<B.byte>,
    stringify: TokenPayload -> string,
    parse: string -> Option<JsonPayload>)

  /** The laws of the primitives: UTF-8 decoding undoes encoding, parsing the
      JSON of a payload reads its fields back, the JSON of an object is never
      empty, and an HMAC-SHA256 digest has 32 bytes. */
  ghost predicate Lawful(p: Primitives) {
    && (forall s :: p.utf8Decode(p.utf8Encode(s)) == s)
    && (forall t :: p.parse(p.stringify(t)) == Some(JsonPayload(Str(t.userId), Str(t.productId), Some(t.exp))))
    && (forall t :: p.utf8Encode(p.stringify(t)) != [])
    && (forall k, m :: |p.hmacSha256(k, m)| == 32)
  }

  /** `process.env.DOWNLOAD_TOKEN_SECRET || null`. */
  function GetSecret(secretEnv: Option<string>): (r: Option<string>)
    ensures r.Some? <==> Present(secretEnv)
    ensures r.Some? ==> r == secretEnv
  {
    if Present(secretEnv) then secretEnv else None
  }

  function EncodeText(p: Primitives, value: string): string {
    B.Encode(p.utf8Encode(value))
  }

  function DecodeText(p: Primitives, value: string): string {
    p.utf8Decode(B.Decode(value))
  }

  function SignPayload(p: Primitives, payload: string, secret: string): string {
    B.Encode(p.hmacSha256(p.utf8Encode(secret), p.utf8Encode(payload)))
  }

  /** `createDownloadToken`: `None` exactly when no secret is configured. */
  function CreateDownloadToken(p: Primitives, secretEnv: Option<string>, now: int,
                               userId: string, productId: string,
                               expiresInSeconds: int := DefaultTtlSeconds): (r: Option<string>)
    ensures r.None? <==> !Present(secretEnv)
  {
    match GetSecret(secretEnv)
    case None => None
    case Some(secret) =>
      var payloadString := p.stringify(TokenPayload(userId, productId, now + expiresInSeconds * 1000));
      Some(EncodeText(p, payloadString) + "." + SignPayload(p, payloadString, secret))
  }

  /** The first segment of `token.split('.')`. */
  function PayloadPart(token: string): string {
    Text.Split(token, '.')[0]
  }

  /** The second segment of `token.split('.')`, `None` when there is none. */
  function SignaturePart(token: string): Option<string> {
    var parts := Text.Split(token, '.');
    if |parts| > 1 then Some(parts[1]) else None
  }

  /** `verifyDownloadToken`: every failure is the same `None`. A result is
      only ever a payload whose signature matches, whose ids are truthy and
      that has not expired. */
  function VerifyDownloadToken(p: Primitives, secretEnv: Option<string>, now: int, token: string): (r: Option<JsonPayload>)
    ensures !Present(secretEnv) ==> r.None?
    ensures PayloadPart(token) == "" || !Present(SignaturePart(token)) ==> r.None?
    ensures r.Some? ==> SignaturePart(token) == Some(SignPayload(p, DecodeText(p, PayloadPart(token)), secretEnv.value))
    ensures r.Some? ==> p.parse(DecodeText(p, PayloadPart(token))) == r
    ensures r.Some? ==> Truthy(r.value.userId) && Truthy(r.value.productId)
    ensures r.Some? && r.value.exp.Some? ==> now <= r.value.exp.value
  {
    match GetSecret(secretEnv)
    case None => None
    case Some(secret) =>
      var payloadPart := PayloadPart(token);
      var signature := SignaturePart(token);
      if payloadPart == "" || !Present(signature) then None
      else
        var payloadString := DecodeText(p, payloadPart);
        if signature.value != SignPayload(p, payloadString, secret) then None
        else
          match p.parse(payloadString)
          case None => None
          case Some(payload) =>
            if !Truthy(payload.productId) || !Truthy(payload.userId) then None
            else if payload.exp.Some? && now > payload.exp.value then None
            else Some(payload)
  }

  /** The converse of the guards: a well-formed token whose signature
      matches, whose JSON parses with truthy ids and whose `exp` is not past
      (or is not a number at all) is accepted. */
  lemma VerifyAccepts(p: Primitives, secretEnv: Option<string>, now: int, token: string, payload: JsonPayload)
    requires Present(secretEnv) && PayloadPart(token) != "" && Present(SignaturePart(token))
    requires SignaturePart(token) == Some(SignPayload(p, DecodeText(p, PayloadPart(token)), secretEnv.value))
    requires p.parse(DecodeText(p, PayloadPart(token))) == Some(payload)
    requires Truthy(payload.userId) && Truthy(payload.productId)
    requires payload.exp.Some? ==> now <= payload.exp.value
    ensures VerifyDownloadToken(p, secretEnv, now, token) == Some(payload)
  {
  }

  /** A minted token has exactly two segments: the encoded JSON of
      `{userId, productId, now + ttl * 1000}`, and the 43-character
      signature of that JSON text (not of its encoding). */
  lemma MintedShape(p: Primitives, secretEnv: Option<string>, now: int, userId: string, productId: string, ttl: int)
    requires Lawful(p) && Present(secretEnv)
    ensures
      var json := p.stringify(TokenPayload(userId, productId, now + ttl * 1000));
      var token := CreateDownloadToken(p, secretEnv, now, userId, productId, ttl).value;
      && Text.Split(token, '.') == [EncodeText(p, json), SignPayload(p, json, secretEnv.value)]
      && DecodeText(p, EncodeText(p, json)) == json
      && |SignPayload(p, json, secretEnv.value)| == 43
  {
    var json := p.stringify(TokenPayload(userId, productId, now + ttl * 1000));
    var part := EncodeText(p, json);
    var sig := SignPayload(p, json, secretEnv.value);
    B.NoDot(p.utf8Encode(json));
    B.NoDot(p.hmacSha256(p.utf8Encode(secretEnv.value), p.utf8Encode(json)));
    Text.SplitCons(part, '.', sig);
    assert part + "." + sig == part + ['.'] + sig;
    B.RoundTrip(p.utf8Encode(json));
  }

  /** Round trip: with the same secret, a freshly minted token verifies at
      any time up to and including its expiry, giving back both ids. */
  lemma RoundTrip(p: Primitives, secretEnv: Option<string>, mintedAt: int, now: int,
                  userId: string, productId: string, ttl: int)
    requires Lawful(p) && Present(secretEnv)
    requires userId != "" && productId != ""
    requires now <= mintedAt + ttl * 1000
    ensures VerifyDownloadToken(p, secretEnv, now, CreateDownloadToken(p, secretEnv, mintedAt, userId, productId, ttl).value)
         == Some(JsonPayload(Str(userId), Str(productId), Some(mintedAt + ttl * 1000)))
  {
    var t := TokenPayload(userId, productId, mintedAt + ttl * 1000);
    var json := p.stringify(t);
    var token := CreateDownloadToken(p, secretEnv, mintedAt, userId, productId, ttl).value;
    MintedShape(p, secretEnv, mintedAt, userId, productId, ttl);
    assert |B.Encode(p.utf8Encode(json))| > 0;
    assert |SignPayload(p, json, secretEnv.value)| == 43;
    VerifyAccepts(p, secretEnv, now, token, JsonPayload(Str(userId), Str(productId), Some(mintedAt + ttl * 1000)));
  }

  /** A minted token is refused once its expiry has passed. */
  lemma ExpiredTokenRefused(p: Primitives, secretEnv: Option<string>, mintedAt: int, now: int,
                            userId: string, productId: string, ttl: int)
    requires Lawful(p) && Present(secretEnv)
    requires now > mintedAt + ttl * 1000
    ensures VerifyDownloadToken(p, secretEnv, now, CreateDownloadToken(p, secretEnv, mintedAt, userId, productId, ttl).value).None?
  {
    var token := CreateDownloadToken(p, secretEnv, mintedAt, userId, productId, ttl).value;
    MintedShape(p, secretEnv, mintedAt, userId, productId, ttl);
  }

  /** Only the first two segments are read: anything after a second `.` is
      ignored. */
  lemma ThirdSegmentIgnored(p: Primitives, secretEnv: Option<string>, now: int,
                            payloadPart: string, signature: string, rest: string)
    requires '.' !in payloadPart && '.' !in signature
    ensures VerifyDownloadToken(p, secretEnv, now, payloadPart + "." + signature + "." + rest)
         == VerifyDownloadToken(p, secretEnv, now, payloadPart + "." + signature)
  {
    var long := payloadPart + "." + signature + "." + rest;
    var short := payloadPart + "." + signature;
    PartsOfLong(payloadPart, signature, rest);
    PartsOfShort(payloadPart, signature);
    assert long == payloadPart + ['.'] + (signature + ['.'] + rest);
    assert short == payloadPart + ['.'] + signature;
    VerifyReadsTwoSegments(p, secretEnv, now, long, short);
  }

  lemma PartsOfLong(a: string, b: string, rest: string)
    requires '.' !in a && '.' !in b
    ensures PayloadPart(a + ['.'] + (b + ['.'] + rest)) == a
    ensures SignaturePart(a + ['.'] + (b + ['.'] + rest)) == Some(b)
  {
    Text.SplitCons(a, '.', b + ['.'] + rest);
    Text.SplitCons(b, '.', rest);
  }

  lemma PartsOfShort(a: string, b: string)
    requires '.' !in a && '.' !in b
    ensures PayloadPart(a + ['.'] + b) == a
    ensures SignaturePart(a + ['.'] + b) == Some(b)
  {
    Text.SplitCons(a, '.', b);
  }

  /** The verdict depends on the token only through its first two segments. */
  lemma VerifyReadsTwoSegments(p: Primitives, secretEnv: Option<string>, now: int, t1: string, t2: string)
    requires PayloadPart(t1) == PayloadPart(t2) && SignaturePart(t1) == SignaturePart(t2)
    ensures VerifyDownloadToken(p, secretEnv, now, t1) == VerifyDownloadToken(p, secretEnv, now, t2)
  {
  }
}
