/** The base64url encoding of section 5 of RFC 4648, without padding, as
    Node's `Buffer` writes it (`toString('base64url')`), and Node's lenient
    decoder (`Buffer.from(text, 'base64url')`): characters outside the
    alphabet are skipped, `+` and `/` of the plain base64 alphabet are
    accepted as well, decoding stops at `=`, and a trailing group of two or
    three characters yields one or two bytes. */
module Base64Url {

  type byte = x: int | 0 <= x < 256
  type sextet = x: int | 0 <= x < 64

  /** The URL- and filename-safe alphabet (Table 2 of RFC 4648). */
  predicate IsAlphabet(c: char) {
    ('A' <= c <= 'Z') || ('a' <= c <= 'z') || ('0' <= c <= '9') || c == '-' || c == '_'
  }

  function CharOf(v: sextet): (c: char)
    ensures IsAlphabet(c)
  {
    if v < 26 then ('A' as int + v) as char
    else if v < 52 then ('a' as int + (v - 26)) as char
    else if v < 62 then ('0' as int + (v - 52)) as char
    else if v == 62 then '-'
    else '_'
  }

  function ValueOf(c: char): (v: sextet)
    requires IsAlphabet(c)
    ensures CharOf(v) == c
  {
    if 'A' <= c <= 'Z' then c as int - 'A' as int
    else if 'a' <= c <= 'z' then c as int - 'a' as int + 26
    else if '0' <= c <= '9' then c as int - '0' as int + 52
    else if c == '-' then 62
    else 63
  }

  lemma ValueOfCharOf(v: sextet)
    ensures ValueOf(CharOf(v)) == v
  {
  }

  predicate AllAlphabet(s: string) {
    forall k :: 0 <= k < |s| ==> IsAlphabet(s[k])
  }

  /** Bytes to sextets, three bytes to four sextets; a trailing pair or
      single byte gives three or two sextets, its low bits padded with zeros. */
  function Sextets(b: seq<byte>): (v: seq<sextet>)
    ensures |v| == (4 * |b| + 2) / 3
  {
    if |b| >= 3 then
      [b[0] / 4, (b[0] % 4) * 16 + b[1] / 16, (b[1] % 16) * 4 + b[2] / 64, b[2] % 64] + Sextets(b[3..])
    else if |b| == 2 then
      [b[0] / 4, (b[0] % 4) * 16 + b[1] / 16, (b[1] % 16) * 4]
    else if |b| == 1 then
      [b[0] / 4, (b[0] % 4) * 16]
    else
      []
  }

  /** Sextets to their characters, one by one. */
  function Chars(v: seq<sextet>): (s: string)
    ensures |s| == |v|
    ensures forall k :: 0 <= k < |v| ==> s[k] == CharOf(v[k])
  {
    if v == [] then [] else [CharOf(v[0])] + Chars(v[1..])
  }

  /** Bytes to text, three bytes to four characters. */
  function Encode(b: seq<byte>): (s: string)
    ensures AllAlphabet(s)
    ensures |s| == (4 * |b| + 2) / 3
  {
    Chars(Sextets(b))
  }

  /** Characters of the alphabet to their sextets, one by one. */
  function Values(s: string): (v: seq<sextet>)
    requires AllAlphabet(s)
    ensures |v| == |s|
    ensures forall k :: 0 <= k < |s| ==> v[k] == ValueOf(s[k])
  {
    if s == [] then [] else [ValueOf(s[0])] + Values(s[1..])
  }

  /** Sextets to bytes, four sextets to three bytes; a trailing group of
      three or two sextets gives two or one byte, and a single trailing
      sextet carries no whole byte and is dropped. */
  function Bytes(v: seq<sextet>): (b: seq<byte>)
  {
    if |v| >= 4 then
      [v[0] as int * 4 + v[1] / 16, (v[1] % 16) as int * 16 + v[2] / 4, (v[2] % 4) as int * 64 + v[3]] + Bytes(v[4..])
    else if |v| == 3 then
      [v[0] as int * 4 + v[1] / 16, (v[1] % 16) as int * 16 + v[2] / 4]
    else if |v| == 2 then
      [v[0] as int * 4 + v[1] / 16]
    else
      []
  }

  /** Text over the alphabet to bytes, four characters to three bytes. */
  function DecodeAlphabet(s: string): seq<byte>
    requires AllAlphabet(s)
  {
    Bytes(Values(s))
  }

  /** What Node's decoder reads of `s`: the characters before the first `=`,
      those outside both alphabets skipped, `+` and `/` read as `-` and `_`. */
  function Clean(s: string): (r: string)
    ensures AllAlphabet(r)
  {
    if s == [] || s[0] == '=' then []
    else if IsAlphabet(s[0]) then [s[0]] + Clean(s[1..])
    else if s[0] == '+' then ['-'] + Clean(s[1..])
    else if s[0] == '/' then ['_'] + Clean(s[1..])
    else Clean(s[1..])
  }

  function Decode(s: string): seq<byte> {
    DecodeAlphabet(Clean(s))
  }

  lemma {:induction false} CleanAlphabet(s: string)
    requires AllAlphabet(s)
    ensures Clean(s) == s
  {
    if s != [] {
      CleanAlphabet(s[1..]);
      assert s == [s[0]] + s[1..];
    }
  }

  lemma GroupRoundTrip(b0: byte, b1: byte, b2: byte)
    ensures (b0 / 4) * 4 + ((b0 % 4) * 16 + b1 / 16) / 16 == b0
    ensures (((b0 % 4) * 16 + b1 / 16) % 16) * 16 + ((b1 % 16) * 4 + b2 / 64) / 4 == b1
    ensures (((b1 % 16) * 4 + b2 / 64) % 4) * 64 + b2 % 64 == b2
  {
  }

  lemma PairRoundTrip(b0: byte, b1: byte)
    ensures (b0 / 4) * 4 + ((b0 % 4) * 16 + b1 / 16) / 16 == b0
    ensures (((b0 % 4) * 16 + b1 / 16) % 16) * 16 + ((b1 % 16) * 4) / 4 == b1
  {
  }

  lemma SingleRoundTrip(b0: byte)
    ensures (b0 / 4) * 4 + ((b0 % 4) * 16) / 16 == b0
  {
  }

  /** Regrouping the sextets of some bytes gives the bytes back. */
  lemma {:induction false} BytesOfSextets(b: seq<byte>)
    ensures Bytes(Sextets(b)) == b
  {
    var v := Sextets(b);
    if |b| >= 3 {
      BytesOfSextets(b[3..]);
      GroupRoundTrip(b[0], b[1], b[2]);
      assert v[4..] == Sextets(b[3..]);
      assert b == [b[0], b[1], b[2]] + b[3..];
    } else if |b| == 2 {
      PairRoundTrip(b[0], b[1]);
    } else if |b| == 1 {
      SingleRoundTrip(b[0]);
    }
  }

  /** Reading the characters of some sextets gives the sextets back. */
  lemma ValuesOfChars(v: seq<sextet>)
    ensures AllAlphabet(Chars(v)) && Values(Chars(v)) == v
  {
    var s := Chars(v);
    forall k | 0 <= k < |v|
      ensures Values(s)[k] == v[k]
    {
      ValueOfCharOf(v[k]);
    }
  }

  lemma DecodeEncode(b: seq<byte>)
    ensures DecodeAlphabet(Encode(b)) == b
  {
    ValuesOfChars(Sextets(b));
    BytesOfSextets(b);
  }

  /** Decoding what was encoded gives back the bytes. */
  lemma RoundTrip(b: seq<byte>)
    ensures Decode(Encode(b)) == b
  {
    CleanAlphabet(Encode(b));
    DecodeEncode(b);
  }

  /** No encoding contains the `.` that separates the parts of a token. */
  lemma NoDot(b: seq<byte>)
    ensures '.' !in Encode(b)
  {
  }
}
