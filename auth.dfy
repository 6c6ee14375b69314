/** Sessions on the server (src/lib/auth.ts): the identity provider's
    `Set-Cookie` header is split into cookies and copied onto the response,
    and the provider's user is matched to a row of the user table, or a new
    row is created for it. */
module Auth {
  import opened Wrappers
  import opened Db
  import Text
  import Http
  import NS = NeonSession

  /** What the request knows about its caller: the provider's session and
      user, and the matching row of the user table. */
  datatype AuthState = AuthState(session: Option<NS.SessionData>, authUser: Option<NS.NeonAuthUser>, user: Option<User>)

  /** `email?.trim().toLowerCase() ?? null`. */
  function NormalizeEmail(email: Option<string>): (r: Option<string>)
    ensures r.None? <==> email.None?
    ensures r.Some? ==> Text.IsTrimmed(r.value) && |r.value| <= |email.value|
    ensures r.Some? ==> forall k :: 0 <= k < |r.value| ==> !('A' <= r.value[k] <= 'Z')
  {
    if email.None? then None
    else
      var t := Text.Trim(email.value);
      LowerKeepsTrimmed(t);
      LowerHasNoCapital(t);
      Some(Text.ToLower(t))
  }

  /** The normalised address is the address without its leading and
      trailing blanks, character by character lower-cased. */
  lemma NormalizeEmailChars(email: string)
    ensures var r := NormalizeEmail(Some(email)).value;
      var lead := Text.Lead(email);
      && |r| == |Text.Trim(email)|
      && lead + |r| <= |email|
      && forall k :: 0 <= k < |r| ==> r[k] == Text.LowerChar(email[lead + k])
  {
    Text.TrimIsPiece(email);
  }

  /** Lower-casing keeps a text trimmed: no letter is a space. */
  lemma LowerKeepsTrimmed(t: string)
    requires Text.IsTrimmed(t)
    ensures Text.IsTrimmed(Text.ToLower(t))
  {
    if t != [] {
      Text.LowerCharFacts(t[0]);
      Text.LowerCharFacts(t[|t| - 1]);
    }
  }

  /** A lower-cased text has no capital letter left. */
  lemma LowerHasNoCapital(t: string)
    ensures forall k :: 0 <= k < |t| ==> !('A' <= Text.ToLower(t)[k] <= 'Z')
  {
    forall k | 0 <= k < |t|
      ensures !('A' <= Text.ToLower(t)[k] <= 'Z')
    {
      Text.LowerCharFacts(t[k]);
    }
  }

  lemma {:induction false} LowerOfLower(t: string)
    requires forall k :: 0 <= k < |t| ==> !('A' <= t[k] <= 'Z')
    ensures Text.ToLower(t) == t
  {
    if t != [] {
      LowerOfLower(t[1..]);
      assert t == [t[0]] + t[1..];
    }
  }

  /** A normalised address normalises to itself. */
  lemma NormalizeIdempotent(email: Option<string>)
    ensures NormalizeEmail(NormalizeEmail(email)) == NormalizeEmail(email)
  {
    if email.Some? {
      var n := NormalizeEmail(email).value;
      Text.TrimOfTrimmed(n);
      LowerOfLower(n);
    }
  }

  // The specification of `splitSetCookieHeader`: the header is cut at every
  // comma outside an `Expires` date, and the pieces between the cuts,
  // trimmed, are the cookies, empty ones dropped.

  /** `headerValue.slice(i, i + 8).toLowerCase() === 'expires='`. */
  predicate ExpiresAt(h: string, i: nat)
    requires i <= |h|
  {
    Text.ToLower(h[i..if i + 8 <= |h| then i + 8 else |h|]) == "expires="
  }

  /** The `inExpires` flag once the first `n` characters have been read: set
      by `expires=`, cleared by `;`. */
  function InExpires(h: string, n: nat): bool
    requires n <= |h|
  {
    if n == 0 then false
    else if h[n - 1] == ';' then false
    else if ExpiresAt(h, n - 1) then true
    else InExpires(h, n - 1)
  }

  /** A comma outside an `Expires` date ends a cookie. */
  predicate IsCut(h: string, i: nat)
    requires i < |h|
  {
    h[i] == ',' && !InExpires(h, i + 1)
  }

  /** The splitting commas of a header, one mark per character. */
  function Marks(h: string): (m: seq<bool>)
    ensures |m| == |h|
    ensures forall i :: 0 <= i < |h| ==> m[i] == IsCut(h, i)
  {
    seq(|h|, i requires 0 <= i < |h| => IsCut(h, i))
  }

  /** The positions of the marked cuts among the first `n` characters,
      ascending. */
  function CutsBefore(m: seq<bool>, n: nat): (c: seq<nat>)
    requires n <= |m|
    ensures forall k :: 0 <= k < |c| ==> c[k] < n
  {
    if n == 0 then [] else CutsBefore(m, n - 1) + (if m[n - 1] then [n - 1] else [])
  }

  /** Where the `k`-th piece starts: at the text's start, or just after
      the previous cut. */
  function From(c: seq<nat>, k: nat): nat
    requires k <= |c|
  {
    if k == 0 then 0 else c[k - 1] + 1
  }

  /** Positions inside `h`, each after the one before. */
  predicate CutsOf(h: string, c: seq<nat>)
    decreases |c|
  {
    c == [] || (CutsOf(h, c[..|c| - 1]) && c[|c| - 1] < |h| && From(c, |c| - 1) <= c[|c| - 1])
  }

  /** The pieces that end at a cut: the text from the previous cut (or the
      start) up to each cut. */
  function Closed(h: string, c: seq<nat>): (r: seq<string>)
    requires CutsOf(h, c)
    ensures |r| == |c|
    decreases |c|
  {
    if c == [] then []
    else
      var n := |c| - 1;
      Closed(h, c[..n]) + [h[From(c, n)..c[n]]]
  }

  /** All the pieces between cuts, the last one running to the end. */
  function Segments(h: string, c: seq<nat>): (r: seq<string>)
    requires CutsOf(h, c)
    ensures |r| == |c| + 1
    ensures From(c, |c|) <= |h| && r[|c|] == h[From(c, |c|)..]
  {
    Closed(h, c) + [h[From(c, |c|)..]]
  }

  /** A piece, unless it is empty. */
  function Keep(t: string): seq<string> {
    if t == "" then [] else [t]
  }

  /** The non-empty pieces, in order. */
  function Kept(ps: seq<string>): seq<string> {
    if ps == [] then [] else Keep(ps[0]) + Kept(ps[1..])
  }

  /** All the cookies of a header: every piece between cuts, trimmed, unless
      it is empty. */
  function SplitSpec(h: string): seq<string> {
    var m := Marks(h);
    CutsBeforeAreCuts(h, m, |h|);
    Kept(NS.TrimAll(Segments(h, CutsBefore(m, |h|))))
  }

  /** Where the current cookie starts once `n` characters have been read,
      given the marks `m` of the cuts. */
  function Start(m: seq<bool>, n: nat): (s: nat)
    requires n <= |m|
    ensures s <= n
  {
    if n == 0 then 0 else if m[n - 1] then n else Start(m, n - 1)
  }

  /** The cookies completed once `n` characters have been read: the trimmed,
      non-empty pieces that end at a cut. */
  function Completed(h: string, m: seq<bool>, n: nat): seq<string>
    requires |m| == |h| && n <= |h|
  {
    CutsBeforeAreCuts(h, m, n);
    Kept(NS.TrimAll(Closed(h, CutsBefore(m, n))))
  }

  /** The positions listed are exactly the marked ones. */
  lemma {:induction false} CutsBeforeExact(m: seq<bool>, n: nat)
    requires n <= |m|
    ensures forall i :: 0 <= i < n ==> (m[i] <==> i in CutsBefore(m, n))
  {
    if n > 0 {
      CutsBeforeExact(m, n - 1);
      var c := CutsBefore(m, n - 1);
      assert forall k :: 0 <= k < |c| ==> c[k] < n - 1;
    }
  }

  lemma CutsBeforeAtCut(m: seq<bool>, n: nat)
    requires 0 < n <= |m| && m[n - 1]
    ensures CutsBefore(m, n) == CutsBefore(m, n - 1) + [n - 1]
  {
  }

  /** A position after the last cut extends the cuts. */
  lemma CutsOfSnoc(h: string, c: seq<nat>, x: nat)
    requires CutsOf(h, c) && x < |h| && (c == [] || c[|c| - 1] < x)
    ensures CutsOf(h, c + [x])
  {
    var cx := c + [x];
    assert cx[..|c|] == c;
    assert From(cx, |c|) == From(c, |c|);
  }

  lemma {:induction false} CutsBeforeAreCuts(h: string, m: seq<bool>, n: nat)
    requires |m| == |h| && n <= |h|
    ensures CutsOf(h, CutsBefore(m, n))
  {
    if n > 0 {
      CutsBeforeAreCuts(h, m, n - 1);
      var c := CutsBefore(m, n - 1);
      if m[n - 1] {
        assert c != [] ==> c[|c| - 1] < n - 1;
        CutsOfSnoc(h, c, n - 1);
        assert CutsBefore(m, n) == c + [n - 1];
      } else {
        assert CutsBefore(m, n) == c;
      }
    }
  }

  lemma {:induction false} ClosedPiece(h: string, c: seq<nat>, k: nat)
    requires CutsOf(h, c) && k < |c|
    ensures From(c, k) <= c[k] < |h| && Closed(h, c)[k] == h[From(c, k)..c[k]]
    decreases |c|
  {
    var n := |c| - 1;
    var front := c[..n];
    if k < n {
      ClosedPiece(h, front, k);
      assert From(front, k) == From(c, k);
      assert Closed(h, c)[k] == Closed(h, front)[k];
    }
  }

  /** The `k`-th closed piece runs from just after the previous cut to the
      `k`-th cut. */
  lemma ClosedPieces(h: string, c: seq<nat>)
    requires CutsOf(h, c)
    ensures forall k :: 0 <= k < |c| ==> From(c, k) <= c[k] < |h| && Closed(h, c)[k] == h[From(c, k)..c[k]]
  {
    forall k | 0 <= k < |c| ensures From(c, k) <= c[k] < |h| && Closed(h, c)[k] == h[From(c, k)..c[k]] {
      ClosedPiece(h, c, k);
    }
  }

  lemma {:induction false} KeptAppend(a: seq<string>, b: seq<string>)
    ensures Kept(a + b) == Kept(a) + Kept(b)
  {
    if a == [] {
      assert a + b == b;
    } else {
      var ab := a + b;
      assert ab[0] == a[0] && ab[1..] == a[1..] + b;
      KeptAppend(a[1..], b);
      assert Keep(a[0]) + (Kept(a[1..]) + Kept(b)) == (Keep(a[0]) + Kept(a[1..])) + Kept(b);
    }
  }

  /** Every piece kept is one of the pieces, and not empty. */
  lemma {:induction false} KeptFrom(ps: seq<string>)
    ensures forall k :: 0 <= k < |Kept(ps)| ==> Kept(ps)[k] != "" && Kept(ps)[k] in ps
  {
    if ps != [] {
      KeptFrom(ps[1..]);
      assert forall t :: t in ps[1..] ==> t in ps;
    }
  }

  lemma {:induction false} StartAtLastCut(m: seq<bool>, n: nat)
    requires n <= |m|
    ensures Start(m, n) == From(CutsBefore(m, n), |CutsBefore(m, n)|)
  {
    if n > 0 {
      StartAtLastCut(m, n - 1);
    }
  }

  lemma ClosedAppend(h: string, c: seq<nat>, x: nat)
    requires CutsOf(h, c + [x])
    ensures CutsOf(h, c) && From(c, |c|) <= x < |h|
    ensures Closed(h, c + [x]) == Closed(h, c) + [h[From(c, |c|)..x]]
  {
    var cx := c + [x];
    assert cx[..|c|] == c;
    assert From(cx, |c|) == From(c, |c|);
  }

  lemma ClosedSnoc(h: string, c: seq<nat>, x: nat, cx: seq<nat>, s: nat)
    requires cx == c + [x] && CutsOf(h, cx) && s == From(c, |c|)
    ensures CutsOf(h, c) && s <= x < |h|
    ensures Closed(h, cx) == Closed(h, c) + [h[s..x]]
  {
    ClosedAppend(h, c, x);
  }

  /** A cut adds the piece from the current start up to it. */
  lemma ClosedAtCut(h: string, m: seq<bool>, n: nat)
    requires |m| == |h| && 0 < n <= |h| && m[n - 1]
    ensures CutsOf(h, CutsBefore(m, n - 1)) && CutsOf(h, CutsBefore(m, n))
    ensures Closed(h, CutsBefore(m, n)) == Closed(h, CutsBefore(m, n - 1)) + [h[Start(m, n - 1)..n - 1]]
  {
    var c := CutsBefore(m, n - 1);
    var cn := CutsBefore(m, n);
    var s := Start(m, n - 1);
    CutsBeforeAtCut(m, n);
    CutsBeforeAreCuts(h, m, n);
    StartAtLastCut(m, n - 1);
    ClosedSnoc(h, c, n - 1, cn, s);
  }

  lemma KeptTrimAppend(cl: seq<string>, piece: string)
    ensures Kept(NS.TrimAll(cl + [piece])) == Kept(NS.TrimAll(cl)) + Keep(Text.Trim(piece))
  {
    var a := NS.TrimAll(cl);
    var t := Text.Trim(piece);
    NS.TrimAllAppend(cl, [piece]);
    assert NS.TrimAll([piece]) == [t];
    assert NS.TrimAll(cl + [piece]) == a + [t];
    KeptAppend(a, [t]);
    assert Kept([t]) == Keep(t) + Kept([]);
  }

  /** Reading character `i` moves the specification one step: the flag, the
      start of the current cookie and the cookies completed so far. */
  lemma Step(h: string, i: nat)
    requires i < |h|
    ensures InExpires(h, i + 1) == (h[i] != ';' && (ExpiresAt(h, i) || InExpires(h, i)))
    ensures IsCut(h, i) == (h[i] == ',' && !InExpires(h, i + 1))
    ensures var m := Marks(h);
      && Start(m, i + 1) == (if IsCut(h, i) then i + 1 else Start(m, i))
      && Completed(h, m, i + 1) == if IsCut(h, i) then Completed(h, m, i) + Keep(Text.Trim(h[Start(m, i)..i])) else Completed(h, m, i)
  {
    var m := Marks(h);
    if m[i] {
      ClosedAtCut(h, m, i + 1);
      KeptTrimAppend(Closed(h, CutsBefore(m, i)), h[Start(m, i)..i]);
    } else {
      CutsBeforeAreCuts(h, m, i);
      assert CutsBefore(m, i + 1) == CutsBefore(m, i);
    }
  }

  /** At the end of the header the rest since the last cut is the last
      cookie. */
  lemma Finish(h: string)
    ensures SplitSpec(h) == Completed(h, Marks(h), |h|) + Keep(Text.Trim(h[Start(Marks(h), |h|)..]))
  {
    var m := Marks(h);
    var c := CutsBefore(m, |h|);
    CutsBeforeAreCuts(h, m, |h|);
    StartAtLastCut(m, |h|);
    KeptTrimAppend(Closed(h, c), h[From(c, |c|)..]);
  }

  /** `splitSetCookieHeader`. */
  method SplitSetCookieHeader(headerValue: string) returns (cookies: seq<string>)
    ensures cookies == SplitSpec(headerValue)
  {
    cookies := [];
    var start := 0;
    var inExpires := false;
    var i := 0;
    assert CutsBefore(Marks(headerValue), 0) == [];
    while i < |headerValue|
      invariant 0 <= i <= |headerValue|
      invariant start == Start(Marks(headerValue), i)
      invariant inExpires == InExpires(headerValue, i)
      invariant cookies == Completed(headerValue, Marks(headerValue), i)
    {
      Step(headerValue, i);
      var c := headerValue[i];
      var end := if i + 8 <= |headerValue| then i + 8 else |headerValue|;
      if Text.ToLower(headerValue[i..end]) == "expires=" {
        inExpires := true;
      }
      if c == ';' {
        inExpires := false;
      }
      assert inExpires == InExpires(headerValue, i + 1);
      if c == ',' && !inExpires {
        assert IsCut(headerValue, i);
        var cookie := Text.Trim(headerValue[start..i]);
        if cookie != "" {
          cookies := cookies + [cookie];
        }
        start := i + 1;
      } else {
        assert !IsCut(headerValue, i);
      }
      i := i + 1;
    }
    Finish(headerValue);
    var lastCookie := Text.Trim(headerValue[start..]);
    if lastCookie != "" {
      cookies := cookies + [lastCookie];
    }
  }

  /** Every cookie is trimmed and non-empty. */
  lemma SplitTrimmed(h: string)
    ensures forall k :: 0 <= k < |SplitSpec(h)| ==> SplitSpec(h)[k] != "" && Text.IsTrimmed(SplitSpec(h)[k])
  {
    var m := Marks(h);
    CutsBeforeAreCuts(h, m, |h|);
    var t := NS.TrimAll(Segments(h, CutsBefore(m, |h|)));
    KeptFrom(t);
    forall k | 0 <= k < |Kept(t)| ensures Text.IsTrimmed(Kept(t)[k]) {
      var j :| 0 <= j < |t| && t[j] == Kept(t)[k];
    }
  }

  /** The start and the cuts stay put while no character is marked. */
  lemma {:induction false} NoCutAfter(m: seq<bool>, i: nat, n: nat)
    requires i <= n <= |m|
    requires forall k :: i <= k < n ==> !m[k]
    ensures Start(m, n) == Start(m, i) && CutsBefore(m, n) == CutsBefore(m, i)
  {
    if n > i {
      NoCutAfter(m, i, n - 1);
      assert CutsBefore(m, n) == CutsBefore(m, n - 1) + [];
    }
  }

  /** A header without a splitting comma gives at most one cookie: the
      trimmed header. */
  lemma NoCutOneCookie(h: string)
    requires forall i :: 0 <= i < |h| ==> !IsCut(h, i)
    ensures SplitSpec(h) == Keep(Text.Trim(h))
  {
    NoCutAfter(Marks(h), 0, |h|);
    Finish(h);
    assert Closed(h, []) == [];
    assert h[0..] == h;
  }

  /** After `expires=` the flag stays set until a `;`. */
  lemma {:induction false} ExpiresHolds(h: string, i: nat, n: nat)
    requires i < n <= |h|
    requires ExpiresAt(h, i)
    requires forall k :: i <= k < n ==> h[k] != ';'
    ensures InExpires(h, n)
  {
    if n - 1 > i {
      ExpiresHolds(h, i, n - 1);
    }
  }

  /** Commas after `expires=` do not split until the next `;`: when the
      `Expires` attribute is the last of its cookie, everything up to the
      end of the header, later cookies included, joins that cookie. */
  lemma ExpiresAbsorbs(h: string, i: nat)
    requires i < |h| && ExpiresAt(h, i)
    requires forall k :: i <= k < |h| ==> h[k] != ';'
    ensures SplitSpec(h) == Completed(h, Marks(h), i) + Keep(Text.Trim(h[Start(Marks(h), i)..]))
  {
    forall k | i <= k < |h| ensures !IsCut(h, k) {
      ExpiresHolds(h, i, k + 1);
    }
    NoCutAfter(Marks(h), i, |h|);
    Finish(h);
  }

  /** The cookies are the trimmed, non-empty pieces of the header between
      consecutive cuts, which are exactly the splitting commas, in
      ascending order; the pieces do not overlap and skip only the commas. */
  lemma SplitSegments(h: string)
    ensures var c := CutsBefore(Marks(h), |h|);
      && CutsOf(h, c)
      && (forall i :: 0 <= i < |h| ==> (IsCut(h, i) <==> i in c))
      && (forall k :: 0 < k < |c| ==> c[k - 1] < c[k])
      && (forall k :: 0 <= k < |c| ==> From(c, k) <= c[k] < |h| && Segments(h, c)[k] == h[From(c, k)..c[k]])
      && Segments(h, c)[|c|] == h[From(c, |c|)..]
      && SplitSpec(h) == Kept(NS.TrimAll(Segments(h, c)))
  {
    var m := Marks(h);
    CutsBeforeAreCuts(h, m, |h|);
    CutsBeforeExact(m, |h|);
    CutsInOrder(h, CutsBefore(m, |h|));
  }

  /** Cuts ascend, and each piece but the last runs from just after the
      previous cut to its own cut. */
  lemma CutsInOrder(h: string, c: seq<nat>)
    requires CutsOf(h, c)
    ensures forall k :: 0 < k < |c| ==> c[k - 1] < c[k]
    ensures forall k :: 0 <= k < |c| ==> From(c, k) <= c[k] < |h| && Segments(h, c)[k] == h[From(c, k)..c[k]]
    ensures Segments(h, c)[|c|] == h[From(c, |c|)..]
  {
    ClosedPieces(h, c);
    forall k | 0 <= k < |c| ensures Segments(h, c)[k] == Closed(h, c)[k] {
    }
  }

  /** `applySetCookies`: the response gets the cookies of the header under
      `set-cookie`, unless there is no header or it holds no cookie, in which
      case the response is left as it was. */
  method ApplySetCookies(res: Http.Response, headerValue: Option<string>)
    modifies res
    ensures res.status == old(res.status) && res.body == old(res.body)
    ensures !Present(headerValue) || SplitSpec(headerValue.value) == [] ==> res.headers == old(res.headers)
    ensures Present(headerValue) && SplitSpec(headerValue.value) != [] ==>
      res.headers == old(res.headers)["set-cookie" := SplitSpec(headerValue.value)]
  {
    if !Present(headerValue) {
      return;
    }
    var cookies := SplitSetCookieHeader(headerValue.value);
    if |cookies| > 0 {
      res.SetHeader("set-cookie", cookies);
    }
  }

  /** What `syncUser` does: its result (`Err` when a write breaks a unique
      constraint) and the user table afterwards. */
  datatype SyncEffect = SyncEffect(result: Result<Option<User>, string>, users: seq<User>)

  const UniqueViolation: string := "Unique constraint failed on the fields: (`email`)"

  /** `syncUser`; `freshId` is the id the database gives a new row. */
  function Sync(users: seq<User>, authUser: NS.NeonAuthUser, freshId: string): SyncEffect {
    if authUser.id == "" || !Present(authUser.email) then SyncEffect(Ok(None), users)
    else
      var email := NormalizeEmail(authUser.email).value;
      if email == "" then SyncEffect(Ok(None), users)
      else
        match FindByAuthId(users, authUser.id)
        case Some(i) => UpdateEmail(users, i, email)
        case None =>
          match Find(users, UserEmail, email)
          case Some(j) => Link(users, j, authUser.id)
          case None => Create(users, freshId, email, authUser.id)
  }

  /** The row already linked to the identity gets the current e-mail, unless
      another row has it. */
  function UpdateEmail(users: seq<User>, i: nat, email: string): SyncEffect
    requires i < |users|
  {
    if users[i].email != email then
      if Find(users, UserEmail, email).Some? then SyncEffect(Err(UniqueViolation), users)
      else
        var updated := users[i].(email := email);
        SyncEffect(Ok(Some(updated)), users[i := updated])
    else SyncEffect(Ok(Some(users[i])), users)
  }

  /** The row with the e-mail is linked to the identity. */
  function Link(users: seq<User>, j: nat, authId: string): SyncEffect
    requires j < |users|
  {
    if users[j].neonAuthId != Some(authId) then
      var linked := users[j].(neonAuthId := Some(authId));
      SyncEffect(Ok(Some(linked)), users[j := linked])
    else SyncEffect(Ok(Some(users[j])), users)
  }

  /** A new `USER` row for the identity. */
  function Create(users: seq<User>, freshId: string, email: string, authId: string): SyncEffect {
    var created := User(freshId, email, Some(authId), UserRole);
    SyncEffect(Ok(Some(created)), users + [created])
  }

  /** What every branch of the upsert returns: the row it wrote, or the row
      that was already right, with its id and role. */
  ghost predicate Upserted(users: seq<User>, e: SyncEffect, authId: string, email: string, freshId: string) {
    && (e.result.Err? ==> e.users == users)
    && (e.result.Ok? ==>
          && e.result.value.Some?
          && var u := e.result.value.value;
          && u in e.users
          && u.neonAuthId == Some(authId)
          && u.email == email
          && ((u.id == freshId && u.role == UserRole) || exists k :: 0 <= k < |users| && users[k].id == u.id && users[k].role == u.role))
  }

  lemma UpdateEmailUpserted(users: seq<User>, i: nat, email: string, authId: string, freshId: string)
    requires i < |users| && users[i].neonAuthId == Some(authId)
    ensures Upserted(users, UpdateEmail(users, i, email), authId, email, freshId)
  {
    var e := UpdateEmail(users, i, email);
    if e.result.Ok? {
      assert e.users[i] == e.result.value.value;
      assert users[i].id == e.result.value.value.id;
    }
  }

  lemma LinkUpserted(users: seq<User>, j: nat, email: string, authId: string, freshId: string)
    requires j < |users| && users[j].email == email
    ensures Upserted(users, Link(users, j, authId), authId, email, freshId)
  {
    var e := Link(users, j, authId);
    assert e.users[j] == e.result.value.value;
    assert users[j].id == e.result.value.value.id;
  }

  lemma CreateUpserted(users: seq<User>, freshId: string, email: string, authId: string)
    ensures Upserted(users, Create(users, freshId, email, authId), authId, email, freshId)
  {
    var e := Create(users, freshId, email, authId);
    assert e.users[|users|] == e.result.value.value;
  }

  /** `null` exactly when the identity has no id, no e-mail, or an e-mail
      that normalises to nothing; otherwise the user returned is in the
      table, carries this identity and the normalised e-mail, and keeps the
      id and role it had (a fresh id and `USER` when it is new). A failed
      write leaves the table as it was. */
  lemma SyncResult(users: seq<User>, authUser: NS.NeonAuthUser, freshId: string)
    ensures var e := Sync(users, authUser, freshId);
      && (e.result == Ok(None) <==>
            authUser.id == "" || !Present(authUser.email) || NormalizeEmail(authUser.email).value == "")
      && (e.result.Ok? && e.result.value.Some? ==>
            var u := e.result.value.value;
            && u in e.users
            && u.neonAuthId == Some(authUser.id)
            && u.email == NormalizeEmail(authUser.email).value
            && ((u.id == freshId && u.role == UserRole) || exists k :: 0 <= k < |users| && users[k].id == u.id && users[k].role == u.role))
      && (e.result.Err? ==> e.users == users)
  {
    if authUser.id != "" && Present(authUser.email) && NormalizeEmail(authUser.email).value != "" {
      var email := NormalizeEmail(authUser.email).value;
      match FindByAuthId(users, authUser.id)
      case Some(i) =>
        UpdateEmailUpserted(users, i, email, authUser.id, freshId);
      case None =>
        match Find(users, UserEmail, email)
        case Some(j) =>
          LinkUpserted(users, j, email, authUser.id, freshId);
        case None =>
          CreateUpserted(users, freshId, email, authUser.id);
    }
  }

  /** Which row the upsert settles on: the row linked to the identity
      (failing exactly when its e-mail changes to one another row holds),
      else the row with the e-mail, else a new `USER` row with the fresh id. */
  lemma SyncChoosesRow(users: seq<User>, authUser: NS.NeonAuthUser, freshId: string)
    requires authUser.id != "" && Present(authUser.email) && NormalizeEmail(authUser.email).value != ""
    ensures var e := Sync(users, authUser, freshId);
      var email := NormalizeEmail(authUser.email).value;
      match FindByAuthId(users, authUser.id)
      case Some(i) =>
        && (e.result.Err? <==> users[i].email != email && Find(users, UserEmail, email).Some?)
        && (e.result.Ok? ==> e.result.value.Some? && e.result.value.value.id == users[i].id)
      case None =>
        match Find(users, UserEmail, email)
        case Some(j) => e.result.Ok? && e.result.value.Some? && e.result.value.value.id == users[j].id
        case None =>
          && e.result == Ok(Some(User(freshId, email, Some(authUser.id), UserRole)))
          && e.users == users + [User(freshId, email, Some(authUser.id), UserRole)]
  {
    var email := NormalizeEmail(authUser.email).value;
    match FindByAuthId(users, authUser.id)
    case Some(i) =>
      assert Sync(users, authUser, freshId) == UpdateEmail(users, i, email);
    case None =>
      match Find(users, UserEmail, email)
      case Some(j) =>
        assert Sync(users, authUser, freshId) == Link(users, j, authUser.id);
      case None =>
        assert Sync(users, authUser, freshId) == Create(users, freshId, email, authUser.id);
  }

  lemma UpdateEmailTwice(users: seq<User>, i: nat, email: string, authId: string)
    requires FindByAuthId(users, authId) == Some(i)
    ensures var once := UpdateEmail(users, i, email);
      FindByAuthId(once.users, authId) == Some(i) && i < |once.users| && UpdateEmail(once.users, i, email) == once
  {
    var once := UpdateEmail(users, i, email);
    FindByAuthIdFirst(users, authId);
    if once.users != users {
      FindByAuthIdAfterUpdate(users, i, users[i].(email := email), authId);
    }
  }

  lemma LinkTwice(users: seq<User>, j: nat, email: string, authId: string)
    requires FindByAuthId(users, authId).None?
    requires Find(users, UserEmail, email) == Some(j)
    ensures var once := Link(users, j, authId);
      FindByAuthId(once.users, authId) == Some(j) && j < |once.users| && UpdateEmail(once.users, j, email) == once
  {
    var once := Link(users, j, authId);
    FindByAuthIdAfterUpdate(users, j, users[j].(neonAuthId := Some(authId)), authId);
  }

  lemma CreateTwice(users: seq<User>, freshId: string, email: string, authId: string)
    requires FindByAuthId(users, authId).None?
    ensures var once := Create(users, freshId, email, authId);
      FindByAuthId(once.users, authId) == Some(|users|) && |users| < |once.users| && UpdateEmail(once.users, |users|, email) == once
  {
    var created := User(freshId, email, Some(authId), UserRole);
    FindByAuthIdAppended(users, created, authId);
  }

  /** Calling `syncUser` again with the same identity changes nothing and
      returns the same: the identity is now linked to a row with the
      normalised e-mail. */
  lemma SyncTwice(users: seq<User>, authUser: NS.NeonAuthUser, freshId: string, otherId: string)
    ensures var once := Sync(users, authUser, freshId);
      Sync(once.users, authUser, otherId) == once
  {
    if authUser.id != "" && Present(authUser.email) && NormalizeEmail(authUser.email).value != "" {
      var email := NormalizeEmail(authUser.email).value;
      match FindByAuthId(users, authUser.id)
      case Some(i) =>
        UpdateEmailTwice(users, i, email, authUser.id);
      case None =>
        match Find(users, UserEmail, email)
        case Some(j) =>
          LinkTwice(users, j, email, authUser.id);
        case None =>
          CreateTwice(users, freshId, email, authUser.id);
    }
  }

  /** The first row with an identity has no earlier row with it. */
  lemma {:induction false} FindByAuthIdFirst(users: seq<User>, authId: string)
    requires FindByAuthId(users, authId).Some?
    ensures forall k :: 0 <= k < FindByAuthId(users, authId).value ==> users[k].neonAuthId != Some(authId)
  {
    if users[0].neonAuthId != Some(authId) {
      FindByAuthIdFirst(users[1..], authId);
      assert forall k :: 1 <= k < |users| ==> users[k] == users[1..][k - 1];
    }
  }

  /** Replacing row `i` by one with the same identity, when no earlier row has
      it, leaves row `i` the first with that identity. */
  lemma {:induction false} FindByAuthIdAfterUpdate(users: seq<User>, i: nat, u: User, authId: string)
    requires i < |users| && u.neonAuthId == Some(authId)
    requires forall k :: 0 <= k < i ==> users[k].neonAuthId != Some(authId)
    ensures FindByAuthId(users[i := u], authId) == Some(i)
  {
    if i > 0 {
      FindByAuthIdAfterUpdate(users[1..], i - 1, u, authId);
      assert users[i := u][1..] == users[1..][i - 1 := u];
    }
  }

  lemma {:induction false} FindByAuthIdAppended(users: seq<User>, u: User, authId: string)
    requires u.neonAuthId == Some(authId)
    requires forall k :: 0 <= k < |users| ==> users[k].neonAuthId != Some(authId)
    ensures FindByAuthId(users + [u], authId) == Some(|users|)
  {
    if users != [] {
      FindByAuthIdAppended(users[1..], u, authId);
      assert (users + [u])[1..] == users[1..] + [u];
    }
  }

  lemma UpdateEmailValid(users: seq<User>, i: nat, email: string)
    requires ValidUsers(users) && i < |users|
    ensures ValidUsers(UpdateEmail(users, i, email).users)
  {
    var e := UpdateEmail(users, i, email);
    if e.users != users {
      assert forall k :: 0 <= k < |users| ==> e.users[k].id == users[k].id && e.users[k].neonAuthId == users[k].neonAuthId;
      assert forall k :: 0 <= k < |users| && k != i ==> e.users[k].email == users[k].email;
    }
  }

  lemma LinkValid(users: seq<User>, j: nat, authId: string)
    requires ValidUsers(users) && j < |users|
    requires FindByAuthId(users, authId).None?
    ensures ValidUsers(Link(users, j, authId).users)
  {
    var e := Link(users, j, authId);
    assert forall k :: 0 <= k < |users| ==> e.users[k].id == users[k].id && e.users[k].email == users[k].email;
    assert forall k :: 0 <= k < |users| && k != j ==> e.users[k].neonAuthId == users[k].neonAuthId;
  }

  lemma CreateValid(users: seq<User>, freshId: string, email: string, authId: string)
    requires ValidUsers(users)
    requires Find(users, UserId, freshId).None? && Find(users, UserEmail, email).None?
    requires FindByAuthId(users, authId).None?
    ensures ValidUsers(Create(users, freshId, email, authId).users)
  {
    var e := Create(users, freshId, email, authId);
    assert forall k :: 0 <= k < |users| ==> e.users[k] == users[k];
  }

  /** The upsert keeps the user table's unique constraints, given that the
      id of a new row is fresh. */
  lemma SyncKeepsValid(users: seq<User>, authUser: NS.NeonAuthUser, freshId: string)
    requires ValidUsers(users)
    requires Find(users, UserId, freshId).None?
    ensures ValidUsers(Sync(users, authUser, freshId).users)
  {
    if authUser.id != "" && Present(authUser.email) && NormalizeEmail(authUser.email).value != "" {
      var email := NormalizeEmail(authUser.email).value;
      match FindByAuthId(users, authUser.id)
      case Some(i) =>
        UpdateEmailValid(users, i, email);
      case None =>
        match Find(users, UserEmail, email)
        case Some(j) =>
          LinkValid(users, j, authUser.id);
        case None =>
          CreateValid(users, freshId, email, authUser.id);
    }
  }

  /** `syncUser` on the database. */
  method SyncUser(db: Store, authUser: NS.NeonAuthUser, freshId: string) returns (result: Result<Option<User>, string>)
    modifies db
    ensures SyncEffect(result, db.users) == Sync(old(db.users), authUser, freshId)
    ensures db.products == old(db.products) && db.productFiles == old(db.productFiles) && db.orders == old(db.orders)
    ensures db.media == old(db.media) && db.productImages == old(db.productImages)
  {
    if authUser.id == "" || !Present(authUser.email) {
      return Ok(None);
    }
    var email := NormalizeEmail(authUser.email).value;
    if email == "" {
      return Ok(None);
    }
    ghost var users := db.users;

    var existingByAuthId := FindByAuthId(db.users, authUser.id);
    if existingByAuthId.Some? {
      var i := existingByAuthId.value;
      assert Sync(users, authUser, freshId) == UpdateEmail(users, i, email);
      if db.users[i].email != email {
        if Find(db.users, UserEmail, email).Some? {
          return Err(UniqueViolation);
        }
        var updated := db.users[i].(email := email);
        db.users := db.users[i := updated];
        return Ok(Some(updated));
      }
      return Ok(Some(db.users[i]));
    }

    var existingByEmail := Find(db.users, UserEmail, email);
    if existingByEmail.Some? {
      var j := existingByEmail.value;
      assert Sync(users, authUser, freshId) == Link(users, j, authUser.id);
      var linked := db.users[j];
      if linked.neonAuthId != Some(authUser.id) {
        linked := linked.(neonAuthId := Some(authUser.id));
        db.users := db.users[j := linked];
      }
      return Ok(Some(linked));
    }

    assert Sync(users, authUser, freshId) == Create(users, freshId, email, authUser.id);
    var created := User(freshId, email, Some(authUser.id), UserRole);
    db.users := db.users + [created];
    return Ok(Some(created));
  }

  /** The headers once the cookies of a `Set-Cookie` header are applied. */
  function WithCookies(headers: map<string, seq<string>>, setCookie: Option<string>): map<string, seq<string>> {
    if Present(setCookie) && SplitSpec(setCookie.value) != [] then headers["set-cookie" := SplitSpec(setCookie.value)]
    else headers
  }

  /** What a session lookup yields: its result, the user table afterwards and
      the `Set-Cookie` header it applies to the response. */
  datatype SessionEffect = SessionEffect(result: Result<AuthState, string>, users: seq<User>, setCookie: Option<string>)

  function SessionSpec(users: seq<User>, baseUrlEnv: Option<string>, cookieHeader: Option<string>, origin: string,
                       remote: NS.SessionRequest -> NS.SessionResponse, freshId: string): SessionEffect {
    var fetched := NS.FetchNeonSession(baseUrlEnv, cookieHeader, Some(origin), remote);
    if fetched.Err? then SessionEffect(Err(fetched.error), users, None)
    else if fetched.value.user.None? then SessionEffect(Ok(AuthState(None, None, None)), users, fetched.value.setCookie)
    else
      var e := Sync(users, fetched.value.user.value, freshId);
      var result := match e.result
        case Err(m) => Err(m)
        case Ok(u) => Ok(AuthState(fetched.value.session, fetched.value.user, u));
      SessionEffect(result, e.users, fetched.value.setCookie)
  }

  /** `getAuthSessionFromRequest`: read the provider's session, copy its
      cookies onto the response, then match the user. `Err` is a rejection:
      the base URL is missing or a write broke a unique constraint. */
  method GetAuthSessionFromRequest(db: Store, res: Http.Response, baseUrlEnv: Option<string>, cookieHeader: Option<string>,
                                   origin: string, remote: NS.SessionRequest -> NS.SessionResponse, freshId: string)
    returns (r: Result<AuthState, string>)
    modifies db, res
    ensures var fetched := NS.FetchNeonSession(baseUrlEnv, cookieHeader, Some(origin), remote);
      && (fetched.Err? ==> r == Err(fetched.error) && db.users == old(db.users) && res.headers == old(res.headers))
      && (fetched.Ok? && fetched.value.user.None? ==> r == Ok(AuthState(None, None, None)) && db.users == old(db.users))
      && (fetched.Ok? && fetched.value.user.Some? ==>
            var e := Sync(old(db.users), fetched.value.user.value, freshId);
            db.users == e.users
            && r == (match e.result
                     case Err(m) => Err(m)
                     case Ok(u) => Ok(AuthState(fetched.value.session, fetched.value.user, u))))
    ensures var e := SessionSpec(old(db.users), baseUrlEnv, cookieHeader, origin, remote, freshId);
      r == e.result && db.users == e.users && res.headers == WithCookies(old(res.headers), e.setCookie)
    ensures db.products == old(db.products) && db.productFiles == old(db.productFiles) && db.orders == old(db.orders)
    ensures db.media == old(db.media) && db.productImages == old(db.productImages)
    ensures res.status == old(res.status) && res.body == old(res.body)
  {
    var fetched := NS.FetchNeonSession(baseUrlEnv, cookieHeader, Some(origin), remote);
    if fetched.Err? {
      return Err(fetched.error);
    }
    ApplySetCookies(res, fetched.value.setCookie);
    if fetched.value.user.None? {
      return Ok(AuthState(None, None, None));
    }
    var user := SyncUser(db, fetched.value.user.value, freshId);
    if user.Err? {
      return Err(user.error);
    }
    return Ok(AuthState(fetched.value.session, fetched.value.user, user.value));
  }
}
