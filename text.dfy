/** String operations of JavaScript that the core relies on: `trim`, ASCII
    `toLowerCase`, `startsWith`, `split` on one character and `join`. */
module Text {

  /** The characters JavaScript's `String.prototype.trim` removes
      (WhiteSpace and LineTerminator of ECMAScript). */
  predicate IsSpace(c: char) {
    || c == ' ' || c == '\t' || c == '\n' || c == '\r' || c == '\U{000B}' || c == '\U{000C}'
    || c == '\U{00A0}' || c == '\U{FEFF}' || c == '\U{1680}' || ('\U{2000}' <= c <= '\U{200A}')
    || c == '\U{2028}' || c == '\U{2029}' || c == '\U{202F}' || c == '\U{205F}' || c == '\U{3000}'
  }

  function TrimStart(s: string): (r: string)
    ensures |r| <= |s|
    ensures r != [] ==> !IsSpace(r[0])
    ensures forall k :: 0 <= k < |s| - |r| ==> IsSpace(s[k])
  {
    if s != [] && IsSpace(s[0]) then TrimStart(s[1..]) else s
  }

  function TrimEnd(s: string): (r: string)
    ensures |r| <= |s|
    ensures r != [] ==> !IsSpace(r[|r| - 1])
    ensures forall k :: |r| <= k < |s| ==> IsSpace(s[k])
  {
    if s != [] && IsSpace(s[|s| - 1]) then TrimEnd(s[..|s| - 1]) else s
  }

  /** What `trimStart` keeps is a suffix of `s`. */
  lemma {:induction false} TrimStartIsSuffix(s: string)
    ensures TrimStart(s) == s[|s| - |TrimStart(s)|..]
  {
    if s != [] && IsSpace(s[0]) {
      TrimStartIsSuffix(s[1..]);
      assert s[1..][|s| - 1 - |TrimStart(s)|..] == s[|s| - |TrimStart(s)|..];
    }
  }

  /** What `trimEnd` keeps is a prefix of `s`. */
  lemma {:induction false} TrimEndIsPrefix(s: string)
    ensures TrimEnd(s) == s[..|TrimEnd(s)|]
  {
    if s != [] && IsSpace(s[|s| - 1]) {
      TrimEndIsPrefix(s[..|s| - 1]);
      assert s[..|s| - 1][..|TrimEnd(s)|] == s[..|TrimEnd(s)|];
    }
  }

  /** A string with no removable space at either end. */
  predicate IsTrimmed(t: string) {
    t == [] || (!IsSpace(t[0]) && !IsSpace(t[|t| - 1]))
  }

  /** `s.trim()`: a contiguous piece of `s` with no space at either end, whose
      surroundings inside `s` are all spaces. */
  function Trim(s: string): (r: string)
    ensures IsTrimmed(r) && |r| <= |s|
  {
    TrimEndIsPrefix(TrimStart(s));
    TrimEnd(TrimStart(s))
  }

  /** What `trim` keeps is the piece of `s` after the leading spaces. */
  lemma TrimIsPiece(s: string)
    ensures Lead(s) + |Trim(s)| <= |s| && Trim(s) == s[Lead(s)..Lead(s) + |Trim(s)|]
  {
    var t := TrimStart(s);
    var r := TrimEnd(t);
    TrimStartIsSuffix(s);
    TrimEndIsPrefix(t);
    assert t[..|r|] == s[Lead(s)..Lead(s) + |r|];
  }

  /** How many spaces `trim` removes from the front of `s`. */
  function Lead(s: string): (n: nat)
    ensures n <= |s|
  {
    |s| - |TrimStart(s)|
  }

  lemma TrimStartOfTrimmed(t: string)
    requires IsTrimmed(t)
    ensures TrimStart(t) == t
  {
  }

  lemma TrimEndOfTrimmed(t: string)
    requires IsTrimmed(t)
    ensures TrimEnd(t) == t
  {
  }

  /** Trimming is idempotent. */
  lemma TrimOfTrimmed(t: string)
    requires IsTrimmed(t)
    ensures Trim(t) == t
  {
    TrimStartOfTrimmed(t);
    TrimEndOfTrimmed(t);
  }

  /** A leading blank, as `join('; ')` leaves before every part after the
      first, is removed again by `trim`. */
  lemma {:induction false} TrimAfterBlank(t: string)
    requires IsTrimmed(t)
    ensures Trim([' '] + t) == t
  {
    assert ([' '] + t)[1..] == t;
    TrimStartOfTrimmed(t);
    TrimEndOfTrimmed(t);
  }

  lemma {:induction false} TrimStartOfSpaces(s: string)
    requires forall k :: 0 <= k < |s| ==> IsSpace(s[k])
    ensures TrimStart(s) == []
  {
    if s != [] {
      TrimStartOfSpaces(s[1..]);
    }
  }

  /** All of `s` is space exactly when it trims to nothing. */
  lemma {:induction false} TrimEmpty(s: string)
    ensures Trim(s) == [] <==> forall k :: 0 <= k < |s| ==> IsSpace(s[k])
  {
    if forall k :: 0 <= k < |s| ==> IsSpace(s[k]) {
      TrimStartOfSpaces(s);
    }
    var t := TrimStart(s);
    if Trim(s) == [] {
      assert t == [];
    }
  }

  function LowerChar(c: char): char {
    if 'A' <= c <= 'Z' then (c as int + 32) as char else c
  }

  /** A lowered character is no capital, and is a space exactly when the
      character was. */
  lemma LowerCharFacts(c: char)
    ensures !('A' <= LowerChar(c) <= 'Z')
    ensures IsSpace(LowerChar(c)) <==> IsSpace(c)
  {
  }

  /** `toLowerCase` over ASCII letters; every other character is kept. */
  function ToLower(s: string): (r: string)
    ensures |r| == |s|
    ensures forall k :: 0 <= k < |s| ==> r[k] == LowerChar(s[k])
  {
    if s == [] then [] else [LowerChar(s[0])] + ToLower(s[1..])
  }

  predicate StartsWith(s: string, prefix: string) {
    |prefix| <= |s| && s[..|prefix|] == prefix
  }

  /** The first position of `c` in `s`, when there is one. */
  function IndexOf(s: string, c: char): (i: nat)
    requires c in s
    ensures i < |s| && s[i] == c && c !in s[..i]
  {
    if s[0] == c then 0 else 1 + IndexOf(s[1..], c)
  }

  /** `s.split(c)` for a one-character separator: the pieces between the
      separators, in order; there is always at least one piece. */
  function Split(s: string, c: char): (parts: seq<string>)
    ensures |parts| >= 1
    decreases |s|
  {
    if c in s then
      var i := IndexOf(s, c);
      [s[..i]] + Split(s[i + 1..], c)
    else
      [s]
  }

  /** No piece of a split holds the separator. */
  lemma {:induction false} SplitPiecesFree(s: string, c: char)
    ensures forall k :: 0 <= k < |Split(s, c)| ==> c !in Split(s, c)[k]
    decreases |s|
  {
    if c in s {
      var i := IndexOf(s, c);
      SplitPiecesFree(s[i + 1..], c);
      SplitAt(s, c);
    }
  }

  /** `parts.join(sep)`. */
  function Join(parts: seq<string>, sep: string): string {
    if parts == [] then ""
    else if |parts| == 1 then parts[0]
    else parts[0] + sep + Join(parts[1..], sep)
  }

  /** Joining the pieces of a split with the separator gives back the text. */
  lemma {:induction false} JoinSplit(s: string, c: char)
    ensures Join(Split(s, c), [c]) == s
    decreases |s|
  {
    if c in s {
      var i := IndexOf(s, c);
      var rest := s[i + 1..];
      var tail := Split(rest, c);
      SplitAt(s, c);
      JoinCons(s[..i], tail, [c]);
      JoinSplit(rest, c);
      assert s == s[..i] + [c] + rest;
    }
  }

  /** A text holding the separator splits at its first occurrence. */
  lemma SplitAt(s: string, c: char)
    requires c in s
    ensures Split(s, c) == [s[..IndexOf(s, c)]] + Split(s[IndexOf(s, c) + 1..], c)
  {
  }

  /** Joining a piece ahead of at least one more. */
  lemma JoinCons(a: string, tail: seq<string>, sep: string)
    requires |tail| >= 1
    ensures Join([a] + tail, sep) == a + sep + Join(tail, sep)
  {
    assert ([a] + tail)[1..] == tail;
  }

  /** A piece free of the separator is the first piece of the split. */
  lemma {:induction false} SplitCons(a: string, c: char, b: string)
    requires c !in a
    ensures Split(a + [c] + b, c) == [a] + Split(b, c)
  {
    var s := a + [c] + b;
    assert s[|a|] == c;
    var i := IndexOf(s, c);
    assert forall k :: 0 <= k < |a| ==> s[k] == a[k];
    assert i == |a|;
    assert s[..i] == a;
    assert s[i + 1..] == b;
  }

  /** Splitting the join of separator-free pieces gives the pieces back. */
  lemma {:induction false} SplitJoin(parts: seq<string>, c: char)
    requires |parts| >= 1
    requires forall k :: 0 <= k < |parts| ==> c !in parts[k]
    ensures Split(Join(parts, [c]), c) == parts
  {
    if |parts| > 1 {
      var rest := Join(parts[1..], [c]);
      assert Join(parts, [c]) == parts[0] + [c] + rest;
      SplitJoin(parts[1..], c);
      SplitCons(parts[0], c, rest);
      assert parts == [parts[0]] + parts[1..];
    }
  }

  /** The last element of a non-empty sequence: what `pop()` returns. */
  function Last<T>(p: seq<T>): T
    requires |p| >= 1
  {
    p[|p| - 1]
  }

  /** Putting an element in front keeps the last one. */
  lemma LastOfCons<T>(a: T, t: seq<T>)
    requires |t| >= 1
    ensures Last([a] + t) == Last(t)
  {
  }

  /** The last piece of `s.split(c)`: what `s.split(c).pop()` returns. */
  function LastPiece(s: string, c: char): string {
    Last(Split(s, c))
  }

  /** The last piece is the text after the last separator (all of `s` when
      it has none). */
  lemma {:induction false} LastPieceIsSuffix(s: string, c: char)
    ensures c !in LastPiece(s, c)
    ensures |LastPiece(s, c)| <= |s| && LastPiece(s, c) == s[|s| - |LastPiece(s, c)|..]
    ensures |LastPiece(s, c)| < |s| ==> s[|s| - |LastPiece(s, c)| - 1] == c
    decreases |s|
  {
    if c in s {
      var i := IndexOf(s, c);
      var rest := s[i + 1..];
      var r := LastPiece(rest, c);
      LastPieceIsSuffix(rest, c);
      LastPieceAfterFirst(s, c);
      assert LastPiece(s, c) == r;
      SuffixOfSuffix(s, i + 1, |r|);
    } else {
      assert Split(s, c) == [s];
    }
  }

  /** Past the first separator, the last piece is that of the rest. */
  lemma LastPieceAfterFirst(s: string, c: char)
    requires c in s
    ensures LastPiece(s, c) == LastPiece(s[IndexOf(s, c) + 1..], c)
  {
    var i := IndexOf(s, c);
    var tail := Split(s[i + 1..], c);
    SplitAt(s, c);
    assert Split(s, c) == [s[..i]] + tail;
    LastOfCons(s[..i], tail);
    assert Last(Split(s, c)) == Last(tail);
  }

  /** A suffix of a suffix is a suffix; so is the character before it. */
  lemma SuffixOfSuffix(s: string, j: nat, n: nat)
    requires j <= |s| && n <= |s| - j
    ensures s[j..][|s| - j - n..] == s[|s| - n..]
    ensures n < |s| - j ==> s[j..][|s| - j - n - 1] == s[|s| - n - 1]
  {
  }
}
