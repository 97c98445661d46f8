/**
 * The browser's `btoa` and `atob` on byte strings.
 *
 * `btoa` is the base64 encoding of section 4 of RFC 4648 (alphabet A-Z a-z 0-9 + /, padding
 * with `=`). `atob` is the "forgiving-base64 decode" of the WHATWG Infra standard: ASCII
 * whitespace is removed, one or two trailing `=` are dropped when the length is a multiple of
 * four, a length of 4k+1 or a character outside the alphabet raises `InvalidCharacterError`,
 * and the leftover bits of a short final group are discarded.
 *
 * Both work on bytes: the availability codec only ever passes `String.fromCharCode` of a byte
 * array to `btoa` and maps the characters of `atob`'s result back through `charCodeAt`, so the
 * one-character-per-byte string in between is the byte sequence itself.
 */
module Base64 {
  import opened Wrappers
  import opened Seqs

  /** Why `atob` raised `InvalidCharacterError`. */
  datatype DecodeError = BadLength | BadCharacter

  /** The 64 characters of the RFC 4648 alphabet. */
  predicate IsBase64Char(c: char) {
    ('A' <= c <= 'Z') || ('a' <= c <= 'z') || ('0' <= c <= '9') || c == '+' || c == '/'
  }

  /** ASCII whitespace as the Infra standard defines it: TAB, LF, FF, CR and SPACE. */
  predicate IsAsciiWhitespace(c: char) {
    c == '\t' || c == '\n' || c as int == 12 || c == '\r' || c == ' '
  }

  /** The character that encodes the 6-bit value `v`. */
  function Enc(v: bv8): (c: char)
    requires v < 64
    ensures IsBase64Char(c) && !IsAsciiWhitespace(c) && c != '='
    ensures Dec(c) == v
  {
    if v < 26 then ('A' as int + v as int) as char
    else if v < 52 then ('a' as int + (v as int - 26)) as char
    else if v < 62 then ('0' as int + (v as int - 52)) as char
    else if v == 62 then '+'
    else '/'
  }

  /** The 6-bit value of an alphabet character (0 for any other character). */
  function Dec(c: char): (v: bv8)
    ensures v < 64
  {
    if 'A' <= c <= 'Z' then (c as int - 'A' as int) as bv8
    else if 'a' <= c <= 'z' then (c as int - 'a' as int + 26) as bv8
    else if '0' <= c <= '9' then (c as int - '0' as int + 52) as bv8
    else if c == '+' then 62
    else if c == '/' then 63
    else 0
  }

  /** How many sextets `n` bytes make: four per full group of three, then 0, 2 or 3. */
  function SextetCount(n: nat): (c: nat)
    ensures c % 4 != 1
  {
    4 * (n / 3) + (if n % 3 == 0 then 0 else n % 3 + 1)
  }

  /** The sextets of one group of three bytes. */
  function Split3(b0: bv8, b1: bv8, b2: bv8): (s: seq<bv8>)
    ensures |s| == 4 && s[0] < 64 && s[1] < 64 && s[2] < 64 && s[3] < 64
  {
    [b0 >> 2, ((b0 & 3) << 4) | (b1 >> 4), ((b1 & 15) << 2) | (b2 >> 6), b2 & 63]
  }

  /** The bytes of one group of four sextets. */
  function Join4(v0: bv8, v1: bv8, v2: bv8, v3: bv8): seq<bv8> {
    [(v0 << 2) | (v1 >> 4), (v1 << 4) | (v2 >> 2), (v2 << 6) | v3]
  }

  /** Splits bytes into 6-bit groups, most significant bits first, zero-filling the last group. */
  function Sextets(b: seq<bv8>): (s: seq<bv8>)
    ensures |s| == SextetCount(|b|)
    ensures forall i :: 0 <= i < |s| ==> s[i] < 64
    decreases |b|
  {
    if |b| == 0 then []
    else if |b| == 1 then Split3(b[0], 0, 0)[..2]
    else if |b| == 2 then Split3(b[0], b[1], 0)[..3]
    else Split3(b[0], b[1], b[2]) + Sextets(b[3..])
  }

  /** Joins 6-bit groups back into bytes; a final group of 2 or 3 sextets gives 1 or 2 bytes. */
  function Octets(v: seq<bv8>): seq<bv8>
    requires |v| % 4 != 1
    decreases |v|
  {
    if |v| == 0 then []
    else if |v| == 2 then Join4(v[0], v[1], 0, 0)[..1]
    else if |v| == 3 then Join4(v[0], v[1], v[2], 0)[..2]
    else Join4(v[0], v[1], v[2], v[3]) + Octets(v[4..])
  }

  /** The `=` characters that complete the last group of four. */
  function Padding(n: nat): string {
    if n % 3 == 1 then "==" else if n % 3 == 2 then "=" else ""
  }

  /** `btoa`: RFC 4648 section 4 base64 with padding. */
  function Btoa(b: seq<bv8>): string {
    Chars(Sextets(b)) + Padding(|b|)
  }

  /** The alphabet characters of a sequence of 6-bit values. */
  function Chars(s: seq<bv8>): (r: string)
    requires forall i :: 0 <= i < |s| ==> s[i] < 64
    ensures |r| == |s|
  {
    seq(|s|, i requires 0 <= i < |s| => Enc(s[i]))
  }

  /** Step 1 of the forgiving decode: drop every ASCII whitespace character. */
  function StripWhitespace(s: string): (r: string)
    ensures |r| <= |s|
    ensures forall i :: 0 <= i < |r| ==> !IsAsciiWhitespace(r[i])
  {
    if s == [] then []
    else (if IsAsciiWhitespace(s[0]) then [] else [s[0]]) + StripWhitespace(s[1..])
  }

  /** Step 2: when the length is a multiple of four, drop one or two trailing `=`. */
  function StripPadding(t: string): string {
    if |t| % 4 == 0 && |t| >= 2 && t[|t| - 1] == '=' && t[|t| - 2] == '=' then t[..|t| - 2]
    else if |t| % 4 == 0 && |t| >= 1 && t[|t| - 1] == '=' then t[..|t| - 1]
    else t
  }

  /** The 6-bit values of a string of alphabet characters. */
  function Values(u: string): (v: seq<bv8>)
    ensures |v| == |u|
  {
    seq(|u|, i requires 0 <= i < |u| => Dec(u[i]))
  }

  /** `atob`: the forgiving-base64 decode, or the error it raises. */
  function Atob(s: string): Result<seq<bv8>, DecodeError> {
    DecodeGroups(StripPadding(StripWhitespace(s)))
  }

  /** Steps 3 to 5 of the forgiving decode, on the string left after steps 1 and 2. */
  function DecodeGroups(u: string): Result<seq<bv8>, DecodeError> {
    if |u| % 4 == 1 then Err(BadLength)
    else if exists i :: 0 <= i < |u| && !IsBase64Char(u[i]) then Err(BadCharacter)
    else Ok(Octets(Values(u)))
  }

  /** Every `btoa` output has a length that is a multiple of four: 4 * ceil(n / 3). */
  lemma BtoaLength(b: seq<bv8>)
    ensures |Btoa(b)| == 4 * ((|b| + 2) / 3)
  {
  }

  /** The bit-level core of the round trip: a group of three bytes survives the split into
      four sextets, and so do the first one or two bytes of a short final group. */
  lemma GroupRoundTrip(b0: bv8, b1: bv8, b2: bv8)
    ensures var s := Split3(b0, b1, b2); Join4(s[0], s[1], s[2], s[3]) == [b0, b1, b2]
    ensures var s := Split3(b0, b1, 0); Join4(s[0], s[1], s[2], 0)[..2] == [b0, b1]
    ensures var s := Split3(b0, 0, 0); Join4(s[0], s[1], 0, 0)[..1] == [b0]
  {
  }

  /** Joining the sextets of some bytes gives the bytes back. */
  lemma {:induction false} OctetsOfSextets(b: seq<bv8>)
    ensures Octets(Sextets(b)) == b
    decreases |b|
  {
    if |b| == 0 {
    } else if |b| == 1 {
      GroupRoundTrip(b[0], 0, 0);
    } else if |b| == 2 {
      GroupRoundTrip(b[0], b[1], 0);
    } else {
      var s := Sextets(b);
      var g := Split3(b[0], b[1], b[2]);
      assert s == g + Sextets(b[3..]);
      assert s[..4] == g && s[4..] == Sextets(b[3..]);
      GroupRoundTrip(b[0], b[1], b[2]);
      OctetsOfSextets(b[3..]);
      assert Octets(s) == Join4(g[0], g[1], g[2], g[3]) + Octets(s[4..]);
      SplitThree(b);
    }
  }

  /** A string without whitespace passes the first decoding step unchanged. */
  lemma {:induction false} StripWhitespaceClean(s: string)
    requires forall i :: 0 <= i < |s| ==> !IsAsciiWhitespace(s[i])
    ensures StripWhitespace(s) == s
  {
    if s != [] {
      assert !IsAsciiWhitespace(s[0]);
      StripWhitespaceClean(s[1..]);
      assert s == [s[0]] + s[1..];
    }
  }

  /** No character of a `btoa` output is whitespace, so the first decoding step keeps it whole. */
  lemma StripWhitespaceOfBtoa(b: seq<bv8>)
    ensures StripWhitespace(Btoa(b)) == Btoa(b)
  {
    var e, t := Chars(Sextets(b)), Btoa(b);
    forall i | 0 <= i < |t| ensures !IsAsciiWhitespace(t[i]) {
      if i < |e| { assert t[i] == e[i]; } else { assert t[i] == '='; }
    }
    StripWhitespaceClean(t);
  }

  /** The second decoding step removes exactly the padding `btoa` adds after `n` bytes. */
  lemma StripPaddingOfPadded(e: string, n: nat)
    requires |e| == SextetCount(n)
    requires forall i :: 0 <= i < |e| ==> e[i] != '='
    ensures StripPadding(e + Padding(n)) == e
  {
    var t := e + Padding(n);
    assert |t| % 4 == 0;
    if n % 3 == 1 {
      assert t[..|t| - 2] == e;
    } else if n % 3 == 2 {
      assert t[|t| - 2] == e[|e| - 1];
      assert t[..|t| - 1] == e;
    } else {
      assert t == e;
    }
  }

  /** A string of alphabet characters of a valid length decodes to the bytes its values join to. */
  lemma DecodeGroupsOfChars(s: seq<bv8>)
    requires forall i :: 0 <= i < |s| ==> s[i] < 64
    requires |s| % 4 != 1
    ensures DecodeGroups(Chars(s)) == Ok(Octets(s))
  {
    var u := Chars(s);
    forall i | 0 <= i < |u| ensures IsBase64Char(u[i]) { assert u[i] == Enc(s[i]); }
    assert Values(u) == s;
  }

  /** `atob` undoes `btoa`: decoding what was encoded gives the original bytes. */
  lemma AtobBtoa(b: seq<bv8>)
    ensures Atob(Btoa(b)) == Ok(b)
  {
    var s := Sextets(b);
    StripWhitespaceOfBtoa(b);
    StripPaddingOfPadded(Chars(s), |b|);
    DecodeGroupsOfChars(s);
    OctetsOfSextets(b);
  }
}
