/** app/core/security.py: encoding, truncation and comparison of passwords. */
module Passwords {

  type Byte = b: nat | b < 256

  /** bcrypt reads no further than this many bytes. */
  const BCRYPT_MAX_BYTES: nat := 72

  /** UTF-8 of one code point, section 3 of RFC 3629. */
  function EncodeChar(c: char): (bs: seq<Byte>)
    ensures 1 <= |bs| <= 4
  {
    var n := c as int;
    if n < 0x80 then [n]
    else if n < 0x800 then [0xC0 + n / 64, 0x80 + n % 64]
    else if n < 0x1_0000 then [0xE0 + n / 4096, 0x80 + n / 64 % 64, 0x80 + n % 64]
    else [0xF0 + n / 0x4_0000, 0x80 + n / 4096 % 64, 0x80 + n / 64 % 64, 0x80 + n % 64]
  }

  function Encode(s: string): (bs: seq<Byte>)
    ensures |s| <= |bs| <= 4 * |s|
  {
    if s == "" then [] else EncodeChar(s[0]) + Encode(s[1..])
  }

  /** Number of bytes announced by a lead byte. */
  function LeadLength(b: Byte): nat {
    if b < 0x80 then 1 else if b < 0xE0 then 2 else if b < 0xF0 then 3 else 4
  }

  /** The code point spelled by the first bytes of `bs`. */
  function CodePoint(bs: seq<Byte>): int
    requires bs != [] && LeadLength(bs[0]) <= |bs|
  {
    var b: int := bs[0];
    var low := (i: int) requires 0 <= i < |bs| => bs[i] as int - 0x80;
    if b < 0x80 then b
    else if b < 0xE0 then (b - 0xC0) * 64 + low(1)
    else if b < 0xF0 then (b - 0xE0) * 4096 + low(1) * 64 + low(2)
    else (b - 0xF0) * 0x4_0000 + low(1) * 4096 + low(2) * 64 + low(3)
  }

  /** A code point and its length can be read back from the front of any byte string. */
  lemma CodePointOfEncoding(c: char, rest: seq<Byte>)
    ensures var bs := EncodeChar(c) + rest;
      LeadLength(bs[0]) == |EncodeChar(c)| && CodePoint(bs) == c as int
  {
    var n := c as int;
    var bs := EncodeChar(c) + rest;
    assert bs[..|EncodeChar(c)|] == EncodeChar(c);
    if n < 0x800 {
    } else if n < 0x1_0000 {
      assert n / 64 / 64 == n / 4096;
    } else {
      assert n / 64 / 64 == n / 4096;
      assert n / 4096 / 64 == n / 0x4_0000;
    }
  }

  /** The bytes are those of sections 3 and 4 of RFC 3629: lead and continuation bytes in their ranges,
      never overlong, and carrying the bits of the code point. */
  lemma EncodingIsUtf8(c: char)
    ensures var n, bs := c as int, EncodeChar(c);
      && (n <= 0x7F ==> bs == [n])
      && (0x80 <= n <= 0x7FF ==>
            && |bs| == 2 && 0xC2 <= bs[0] <= 0xDF && 0x80 <= bs[1] <= 0xBF
            && n == (bs[0] as int - 0xC0) * 0x40 + (bs[1] as int - 0x80))
      && (0x800 <= n <= 0xFFFF ==>
            && |bs| == 3 && 0xE0 <= bs[0] <= 0xEF && 0x80 <= bs[1] <= 0xBF && 0x80 <= bs[2] <= 0xBF
            && (bs[0] == 0xE0 ==> 0xA0 <= bs[1]) && (bs[0] == 0xED ==> bs[1] <= 0x9F)
            && n == (bs[0] as int - 0xE0) * 0x1000 + (bs[1] as int - 0x80) * 0x40 + (bs[2] as int - 0x80))
      && (0x1_0000 <= n ==>
            && |bs| == 4 && 0xF0 <= bs[0] <= 0xF4
            && 0x80 <= bs[1] <= 0xBF && 0x80 <= bs[2] <= 0xBF && 0x80 <= bs[3] <= 0xBF
            && (bs[0] == 0xF0 ==> 0x90 <= bs[1]) && (bs[0] == 0xF4 ==> bs[1] <= 0x8F)
            && n == (bs[0] as int - 0xF0) * 0x4_0000 + (bs[1] as int - 0x80) * 0x1000
                    + (bs[2] as int - 0x80) * 0x40 + (bs[3] as int - 0x80))
  {
    var n := c as int;
    assert 0 <= n < 0xD800 || 0xE000 <= n < 0x11_0000;
    if 0x800 <= n {
      assert n / 64 / 64 == n / 4096;
      assert n / 4096 / 64 == n / 0x4_0000;
    }
  }

  /** UTF-8 is injective: two strings with the same bytes are the same string. */
  lemma {:induction false} EncodeInjective(s: string, t: string)
    requires Encode(s) == Encode(t)
    ensures s == t
  {
    if s == "" || t == "" {
    } else {
      CodePointOfEncoding(s[0], Encode(s[1..]));
      CodePointOfEncoding(t[0], Encode(t[1..]));
      var n := |EncodeChar(s[0])|;
      assert s[0] == t[0];
      assert Encode(s)[n..] == Encode(s[1..]);
      assert Encode(t)[n..] == Encode(t[1..]);
      EncodeInjective(s[1..], t[1..]);
      assert s == [s[0]] + s[1..];
      assert t == [t[0]] + t[1..];
    }
  }

  lemma {:induction false} EncodeAppend(s: string, t: string)
    ensures Encode(s + t) == Encode(s) + Encode(t)
  {
    if s == "" {
      assert s + t == t;
    } else {
      assert (s + t)[1..] == s[1..] + t;
      EncodeAppend(s[1..], t);
    }
  }

  function Truncate(password: string): (bs: seq<Byte>)
    ensures bs <= Encode(password) && |bs| <= BCRYPT_MAX_BYTES
  {
    var bs := Encode(password);
    if |bs| <= BCRYPT_MAX_BYTES then bs else bs[..BCRYPT_MAX_BYTES]
  }

  /** A stored hash, standing for the bytes bcrypt was given. */
  datatype Hash = Hash(bytes: seq<Byte>)

  function HashPassword(password: string): Hash { Hash(Truncate(password)) }

  predicate VerifyPassword(plain: string, hashed: Hash) { Hash(Truncate(plain)) == hashed }

  /** app/schemas/fields.py: the length limits of `PasswordStr`. */
  const PASSWORD_MIN_LENGTH: nat := 8
  const PASSWORD_MAX_LENGTH: nat := 13

  predicate AcceptedLength(password: string) {
    PASSWORD_MIN_LENGTH <= |password| <= PASSWORD_MAX_LENGTH
  }

  /** A password check is string equality for every login attempt exactly when the stored
      password was shorter than 72 bytes. */
  lemma CheckIsExactIff(stored: string)
    ensures (forall plain :: VerifyPassword(plain, HashPassword(stored)) <==> plain == stored)
       <==> |Encode(stored)| < 72
  {
    if |Encode(stored)| < BCRYPT_MAX_BYTES {
      forall plain | VerifyPassword(plain, HashPassword(stored)) ensures plain == stored {
        EncodeInjective(plain, stored);
      }
    } else {
      var longer := stored + "x";
      EncodeAppend(stored, "x");
      assert VerifyPassword(longer, HashPassword(stored)) && longer != stored;
    }
  }

  /** So the check is exact for every password the schema accepts. */
  lemma AcceptedPasswordCheckIsExact(stored: string, plain: string)
    requires 8 <= |stored| <= 13
    ensures AcceptedLength(stored) && |Encode(stored)| <= 52
    ensures VerifyPassword(plain, HashPassword(stored)) <==> plain == stored
  {
    CheckIsExactIff(stored);
  }
}
