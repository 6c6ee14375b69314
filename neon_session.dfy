/** Reading the Neon Auth session (src/lib/auth/neon-session.ts): the
    request's cookies are narrowed to the session cookies of the identity
    provider, which are sent to its `get-session` endpoint. The endpoint is
    the parameter `remote`; the `NEON_AUTH_BASE_URL` variable is a
    parameter too. */
module NeonSession {
  import opened Wrappers
  import Text

  datatype NeonAuthUser = NeonAuthUser(id: string, email: Option<string>)

  /** The provider's session object is opaque here. */
  type SessionData = string

  datatype NeonAuthSession = NeonAuthSession(session: Option<SessionData>, user: Option<NeonAuthUser>)

  const NeonCookiePrefix: string := "__Secure-neon-auth"

  /** Each piece trimmed. */
  function TrimAll(parts: seq<string>): (r: seq<string>)
    ensures |r| == |parts|
    ensures forall k :: 0 <= k < |parts| ==> r[k] == Text.Trim(parts[k])
  {
    if parts == [] then [] else [Text.Trim(parts[0])] + TrimAll(parts[1..])
  }

  /** The pieces that start with the prefix, in their order. */
  function KeepNeon(parts: seq<string>): (r: seq<string>)
    ensures forall k :: 0 <= k < |r| ==> Text.StartsWith(r[k], NeonCookiePrefix)
    ensures |r| <= |parts|
  {
    if parts == [] then []
    else if Text.StartsWith(parts[0], NeonCookiePrefix) then [parts[0]] + KeepNeon(parts[1..])
    else KeepNeon(parts[1..])
  }

  /** Exactly the pieces with the prefix are kept. */
  lemma {:induction false} KeepNeonMembers(parts: seq<string>)
    ensures forall x :: x in KeepNeon(parts) <==> x in parts && Text.StartsWith(x, NeonCookiePrefix)
  {
    if parts != [] {
      KeepNeonMembers(parts[1..]);
      assert parts == [parts[0]] + parts[1..];
    }
  }

  /** Filtering keeps the order: what is kept of a concatenation is what is
      kept of its first part followed by what is kept of the second. */
  lemma {:induction false} KeepNeonAppend(a: seq<string>, b: seq<string>)
    ensures KeepNeon(a + b) == KeepNeon(a) + KeepNeon(b)
  {
    if a == [] {
      assert a + b == b;
    } else {
      var ab := a + b;
      assert ab[0] == a[0] && ab[1..] == a[1..] + b;
      KeepNeonAppend(a[1..], b);
      var rest := KeepNeon(a[1..]);
      if Text.StartsWith(a[0], NeonCookiePrefix) {
        assert KeepNeon(ab) == [a[0]] + KeepNeon(a[1..] + b);
        assert KeepNeon(a) == [a[0]] + rest;
        assert [a[0]] + (rest + KeepNeon(b)) == ([a[0]] + rest) + KeepNeon(b);
      } else {
        assert KeepNeon(ab) == KeepNeon(a[1..] + b);
        assert KeepNeon(a) == rest;
      }
    }
  }

  lemma TrimAllAppend(a: seq<string>, b: seq<string>)
    ensures TrimAll(a + b) == TrimAll(a) + TrimAll(b)
  {
  }

  /** What one `;`-part of a cookie header contributes: itself trimmed when
      that starts with the prefix, else nothing. */
  function KeptCookie(part: string): (r: seq<string>)
    ensures |r| <= 1
    ensures r == [Text.Trim(part)] <==> Text.StartsWith(Text.Trim(part), NeonCookiePrefix)
  {
    var t := Text.Trim(part);
    if Text.StartsWith(t, NeonCookiePrefix) then [t] else []
  }

  /** A trimmed piece of a text without `c` has no `c` either. */
  lemma TrimKeepsOut(s: string, c: char)
    requires c !in s
    ensures c !in Text.Trim(s)
  {
    var t := Text.Trim(s);
    Text.TrimIsPiece(s);
    assert forall k :: 0 <= k < |t| ==> t[k] == s[Text.Lead(s) + k];
  }

  /** The session cookies of a cookie header: its `;`-separated parts,
      trimmed, that start with `__Secure-neon-auth`; each is trimmed and free
      of `;`. */
  function NeonParts(cookieHeader: string): (r: seq<string>)
    ensures forall k :: 0 <= k < |r| ==>
      Text.IsTrimmed(r[k]) && Text.StartsWith(r[k], NeonCookiePrefix) && ';' !in r[k]
  {
    var parts := Text.Split(cookieHeader, ';');
    Text.SplitPiecesFree(cookieHeader, ';');
    TrimAllKeepsOut(parts, ';');
    KeepNeonKeepsOut(TrimAll(parts), ';');
    KeepNeon(TrimAll(parts))
  }

  /** A header without `;` has at most its own session cookie. */
  lemma NeonPartsSingle(a: string)
    requires ';' !in a
    ensures NeonParts(a) == KeptCookie(a)
  {
    assert Text.Split(a, ';') == [a];
  }

  /** The session cookies of a header, in the header's order: those of its
      first `;`-part, then those of the rest. */
  lemma NeonPartsCons(a: string, b: string)
    requires ';' !in a
    ensures NeonParts(a + ";" + b) == KeptCookie(a) + NeonParts(b)
  {
    Text.SplitCons(a, ';', b);
    var rest := Text.Split(b, ';');
    assert Text.Split(a + ";" + b, ';') == [a] + rest;
    TrimAllAppend([a], rest);
    KeepNeonAppend([Text.Trim(a)], TrimAll(rest));
  }

  /** Trimming pieces free of `c` leaves them free of `c`, and trimmed. */
  lemma TrimAllKeepsOut(parts: seq<string>, c: char)
    requires forall k :: 0 <= k < |parts| ==> c !in parts[k]
    ensures forall k :: 0 <= k < |parts| ==> c !in TrimAll(parts)[k] && Text.IsTrimmed(TrimAll(parts)[k])
  {
    forall k | 0 <= k < |parts|
      ensures c !in TrimAll(parts)[k]
    {
      TrimKeepsOut(parts[k], c);
    }
  }

  /** The pieces kept are trimmed and free of `c` when all pieces are. */
  lemma {:induction false} KeepNeonKeepsOut(parts: seq<string>, c: char)
    requires forall k :: 0 <= k < |parts| ==> c !in parts[k] && Text.IsTrimmed(parts[k])
    ensures forall k :: 0 <= k < |KeepNeon(parts)| ==> c !in KeepNeon(parts)[k] && Text.IsTrimmed(KeepNeon(parts)[k])
  {
    if parts != [] {
      KeepNeonKeepsOut(parts[1..], c);
    }
  }

  /** `extractNeonAuthCookies`: `''` without a header, else the session
      cookies joined with `'; '`. */
  function ExtractNeonAuthCookies(cookieHeader: Option<string>): (r: string)
    ensures !Present(cookieHeader) ==> r == ""
  {
    if !Present(cookieHeader) then "" else Text.Join(NeonParts(cookieHeader.value), "; ")
  }

  /** Every piece after the first with a blank in front. */
  function Indent(parts: seq<string>): (r: seq<string>)
    ensures |r| == |parts|
    ensures forall k :: 0 <= k < |parts| ==> r[k] == [' '] + parts[k]
  {
    if parts == [] then [] else [[' '] + parts[0]] + Indent(parts[1..])
  }

  /** Joining with `'; '` is joining with `;` pieces that carry a blank. */
  lemma {:induction false} JoinWithBlank(rest: seq<string>)
    requires rest != []
    ensures [' '] + Text.Join(rest, "; ") == Text.Join(Indent(rest), ";")
  {
    if |rest| > 1 {
      JoinWithBlank(rest[1..]);
      assert Indent(rest)[1..] == Indent(rest[1..]);
      assert [' '] + (rest[0] + "; " + Text.Join(rest[1..], "; "))
          == ([' '] + rest[0]) + ";" + ([' '] + Text.Join(rest[1..], "; "));
    }
  }

  /** The pieces `split(';')` cuts a `'; '`-joined text into. */
  function Pieces(ps: seq<string>): seq<string>
    requires ps != []
  {
    [ps[0]] + Indent(ps[1..])
  }

  lemma JoinPieces(ps: seq<string>)
    requires ps != []
    ensures Text.Join(Pieces(ps), ";") == Text.Join(ps, "; ")
  {
    if |ps| > 1 {
      JoinWithBlank(ps[1..]);
      assert Pieces(ps)[1..] == Indent(ps[1..]);
    }
  }

  lemma SplitJoined(ps: seq<string>)
    requires ps != []
    requires forall k :: 0 <= k < |ps| ==> ';' !in ps[k]
    ensures Text.Split(Text.Join(ps, "; "), ';') == Pieces(ps)
  {
    var pieces := Pieces(ps);
    assert forall k :: 0 <= k < |pieces| ==> ';' !in pieces[k] by {
      forall k | 0 <= k < |pieces| ensures ';' !in pieces[k] {
        if k > 0 {
          assert pieces[k] == [' '] + ps[k];
        }
      }
    }
    JoinPieces(ps);
    Text.SplitJoin(pieces, ';');
  }

  lemma TrimPieces(ps: seq<string>)
    requires ps != []
    requires forall k :: 0 <= k < |ps| ==> Text.IsTrimmed(ps[k])
    ensures TrimAll(Pieces(ps)) == ps
  {
    var pieces := Pieces(ps);
    forall k | 0 <= k < |ps| ensures Text.Trim(pieces[k]) == ps[k] {
      if k == 0 {
        Text.TrimOfTrimmed(ps[0]);
      } else {
        assert pieces[k] == [' '] + ps[k];
        Text.TrimAfterBlank(ps[k]);
      }
    }
  }

  /** Filtering the filtered header gives the same cookies again. */
  lemma ExtractIdempotent(cookieHeader: Option<string>)
    ensures ExtractNeonAuthCookies(Some(ExtractNeonAuthCookies(cookieHeader))) == ExtractNeonAuthCookies(cookieHeader)
  {
    var j := ExtractNeonAuthCookies(cookieHeader);
    if j != "" {
      var ps := NeonParts(cookieHeader.value);
      assert j == Text.Join(ps, "; ");
      assert ps != [];
      SplitJoined(ps);
      assert Text.Split(j, ';') == Pieces(ps);
      TrimPieces(ps);
      assert TrimAll(Text.Split(j, ';')) == ps;
      KeepAllNeon(ps);
      assert NeonParts(j) == ps;
    }
  }

  lemma {:induction false} KeepAllNeon(ps: seq<string>)
    requires forall k :: 0 <= k < |ps| ==> Text.StartsWith(ps[k], NeonCookiePrefix)
    ensures KeepNeon(ps) == ps
  {
    if ps != [] {
      KeepAllNeon(ps[1..]);
    }
  }

  /** The joined text is empty exactly when there is no session cookie, and
      cutting it at `;` and trimming gives the session cookies back. */
  lemma ExtractReadsBack(cookieHeader: Option<string>)
    requires Present(cookieHeader)
    ensures var r := ExtractNeonAuthCookies(cookieHeader);
      && (r == "" <==> NeonParts(cookieHeader.value) == [])
      && (r != "" ==> TrimAll(Text.Split(r, ';')) == NeonParts(cookieHeader.value))
  {
    var ps := NeonParts(cookieHeader.value);
    var r := ExtractNeonAuthCookies(cookieHeader);
    if ps != [] {
      assert Text.StartsWith(ps[0], NeonCookiePrefix);
      assert |r| >= |ps[0]|;
      SplitJoined(ps);
      TrimPieces(ps);
    }
  }

  /** The request sent to the provider. */
  datatype SessionRequest = SessionRequest(url: string, cookie: string, origin: Option<string>)

  /** The provider's answer: `data` is `None` when the body is not JSON (or
      is `null`). */
  datatype SessionResponse = SessionResponse(ok: bool, setCookie: Option<string>, data: Option<NeonAuthSession>)

  /** The result of `fetchNeonSession`, and the request it made, if any. */
  datatype Fetched = Fetched(session: Option<SessionData>, user: Option<NeonAuthUser>, setCookie: Option<string>,
                             request: Option<SessionRequest>)

  /** `new URL('get-session', base)`, the base given a trailing `/` when it
      lacks one, as concatenation. */
  function SessionUrl(baseUrl: string): (r: string)
    ensures |r| >= |"get-session"| + 1
    ensures var dir := r[..|r| - |"get-session"|];
      && r == dir + "get-session"
      && baseUrl <= dir && |dir| <= |baseUrl| + 1 && dir[|dir| - 1] == '/'
      && (|baseUrl| > 0 && baseUrl[|baseUrl| - 1] == '/' ==> dir == baseUrl)
  {
    (if |baseUrl| > 0 && baseUrl[|baseUrl| - 1] == '/' then baseUrl else baseUrl + "/") + "get-session"
  }

  /** `fetchNeonSession`. */
  function FetchNeonSession(baseUrlEnv: Option<string>, cookieHeader: Option<string>, origin: Option<string>,
                            remote: SessionRequest -> SessionResponse): (r: Result<Fetched, string>)
    ensures !Present(baseUrlEnv) <==> r == Err("NEON_AUTH_BASE_URL is missing")
    ensures r.Ok? && ExtractNeonAuthCookies(cookieHeader) == "" ==> r.value == Fetched(None, None, None, None)
    ensures r.Ok? && r.value.request.Some? ==>
      r.value.request.value.cookie == ExtractNeonAuthCookies(cookieHeader) != ""
      && r.value.setCookie == remote(r.value.request.value).setCookie
      && (!remote(r.value.request.value).ok || remote(r.value.request.value).data.None? ==>
            r.value.session.None? && r.value.user.None?)
    ensures r.Ok? && ExtractNeonAuthCookies(cookieHeader) != "" ==>
      && r.value.request.Some?
      && r.value.request.value.url == SessionUrl(baseUrlEnv.value)
      && r.value.request.value.origin == (if Present(origin) then origin else None)
    ensures r.Ok? && r.value.request.Some? && remote(r.value.request.value).ok && remote(r.value.request.value).data.Some? ==>
      && r.value.session == remote(r.value.request.value).data.value.session
      && r.value.user == remote(r.value.request.value).data.value.user
  {
    if !Present(baseUrlEnv) then Err("NEON_AUTH_BASE_URL is missing")
    else
      var cookies := ExtractNeonAuthCookies(cookieHeader);
      if cookies == "" then Ok(Fetched(None, None, None, None))
      else
        var request := SessionRequest(SessionUrl(baseUrlEnv.value), cookies, if Present(origin) then origin else None);
        var response := remote(request);
        if !response.ok || response.data.None? then Ok(Fetched(None, None, response.setCookie, Some(request)))
        else Ok(Fetched(response.data.value.session, response.data.value.user, response.setCookie, Some(request)))
  }

  lemma {:induction false} KeepNeonEmpty(parts: seq<string>)
    ensures KeepNeon(parts) == [] <==> forall k :: 0 <= k < |parts| ==> !Text.StartsWith(parts[k], NeonCookiePrefix)
  {
    if parts != [] {
      KeepNeonEmpty(parts[1..]);
      assert forall k :: 1 <= k < |parts| ==> parts[k] == parts[1..][k - 1];
    }
  }

  /** The filtered header is empty exactly when there is no header or no
      part of it, trimmed, starts with the session-cookie prefix; only then is
      no request made. */
  lemma ExtractEmpty(cookieHeader: Option<string>)
    ensures ExtractNeonAuthCookies(cookieHeader) == "" <==>
      !Present(cookieHeader)
      || forall k :: 0 <= k < |Text.Split(cookieHeader.value, ';')| ==>
           !Text.StartsWith(Text.Trim(Text.Split(cookieHeader.value, ';')[k]), NeonCookiePrefix)
  {
    if Present(cookieHeader) {
      var parts := Text.Split(cookieHeader.value, ';');
      var trimmed := TrimAll(parts);
      KeepNeonEmpty(trimmed);
      var ps := NeonParts(cookieHeader.value);
      if ps != [] {
        assert |ps[0]| >= |NeonCookiePrefix|;
        if |ps| > 1 {
          assert |Text.Join(ps, "; ")| >= |ps[0]|;
        }
      }
    }
  }
}
