/** Truncating client-controlled text at a UTF-8 boundary (RFC 3629, section 4). */
module Clip {

  newtype Byte = b: int | 0 <= b < 256

  predicate Tail(b: Byte) { 0x80 <= b <= 0xBF }

  /** Length of the encoded character s starts with, 0 when s starts with none. */
  function HeadLen(s: seq<Byte>): (n: nat)
    ensures n <= 4 && n <= |s|
  {
    if s == [] then 0
    else if s[0] <= 0x7F then 1
    else if 0xC2 <= s[0] <= 0xDF then (if |s| >= 2 && Tail(s[1]) then 2 else 0)
    else if 0xE0 <= s[0] <= 0xEF then
      (if |s| >= 3 && Tail(s[1]) && Tail(s[2])
          && (s[0] == 0xE0 ==> s[1] >= 0xA0) && (s[0] == 0xED ==> s[1] <= 0x9F) then 3 else 0)
    else if 0xF0 <= s[0] <= 0xF4 then
      (if |s| >= 4 && Tail(s[1]) && Tail(s[2]) && Tail(s[3])
          && (s[0] == 0xF0 ==> s[1] >= 0x90) && (s[0] == 0xF4 ==> s[1] <= 0x8F) then 4 else 0)
    else 0
  }

  predicate Valid(s: seq<Byte>) {
    s == [] || (HeadLen(s) > 0 && Valid(s[HeadLen(s)..]))
  }

  /** The longest valid prefix of at most n bytes. */
  function LongestValid(s: seq<Byte>, n: nat): (r: nat)
    requires n <= |s|
    ensures r <= n && Valid(s[..r]) && forall k :: r < k <= n ==> !Valid(s[..k])
  {
    if Valid(s[..n]) then n else LongestValid(s, n-1)
  }

  function Clipped(s: seq<Byte>, limit: nat): seq<Byte> {
    if |s| <= limit then s else s[..LongestValid(s, limit)]
  }

  /** Cuts at the limit, then backs off one byte at a time until what is left is valid. */
  method Truncate(s: seq<Byte>, limit: nat) returns (r: seq<Byte>)
    ensures r == Clipped(s, limit)
  {
    if |s| <= limit { return s; }
    r := s[..limit];
    while |r| > 0 && !Valid(r)
      invariant |r| <= limit && r == s[..|r|]
      invariant forall n :: |r| < n <= limit ==> !Valid(s[..n])
      decreases |r|
    {
      r := r[..|r|-1];
    }
    var n := LongestValid(s, limit);
    assert !(n < |r|) && !(|r| < n);
  }

  lemma HeadLenOfPrefix(s: seq<Byte>, n: nat)
    requires n <= |s| && 0 < HeadLen(s) <= n
    ensures HeadLen(s[..n]) == HeadLen(s)
  {
  }

  /** Valid text has a character boundary within three bytes before any cut. */
  lemma {:induction false} BoundaryNear(s: seq<Byte>, n: nat) returns (m: nat)
    requires Valid(s) && n <= |s|
    ensures m <= n <= m + 3 && Valid(s[..m])
    decreases n
  {
    var h := HeadLen(s);
    if n == 0 || n < h {
      m := 0;
    } else {
      var k := BoundaryNear(s[h..], n - h);
      m := h + k;
      HeadLenOfPrefix(s, m);
      assert s[..m][h..] == s[h..][..k];
    }
  }

  /** The stored text is valid exactly when it was cut or had been valid all along: short invalid
      text passes through unchanged. */
  lemma ClippedIsValidIff(s: seq<Byte>, limit: nat)
    ensures Valid(Clipped(s, limit)) <==> |s| > limit || Valid(s)
  {
  }

  /** Cutting valid text never costs more than three bytes below the limit. */
  lemma ClippedLosesLittle(s: seq<Byte>, limit: nat)
    requires Valid(s) && |s| > limit
    ensures limit - 3 <= |Clipped(s, limit)| <= limit
  {
    var m := BoundaryNear(s, limit);
  }

  /** A short but invalid text is stored as it came. */
  lemma InvalidTextPasses()
    ensures Clipped([0xFF], 512) == [0xFF] && !Valid([0xFF])
  {
  }

  // ----- what valid means -------------------------------------------------

  /** A code point that is encoded: no surrogate, at most U+10FFFF. */
  predicate Scalar(u: int) { 0 <= u <= 0x10FFFF && !(0xD800 <= u <= 0xDFFF) }

  function Follow(x: int): Byte
    requires 0 <= x < 64
  {
    (0x80 + x) as Byte
  }

  /** The encoding of one code point, shortest form. */
  function Encode(u: int): (r: seq<Byte>)
    requires Scalar(u)
    ensures 1 <= |r| <= 4
  {
    if u < 0x80 then [u as Byte]
    else if u < 0x800 then [(0xC0 + u / 64) as Byte, Follow(u % 64)]
    else if u < 0x10000 then [(0xE0 + u / 4096) as Byte, Follow(u / 64 % 64), Follow(u % 64)]
    else [(0xF0 + u / 262144) as Byte, Follow(u / 4096 % 64), Follow(u / 64 % 64), Follow(u % 64)]
  }

  ghost predicate Scalars(us: seq<int>) { forall i :: 0 <= i < |us| ==> Scalar(us[i]) }

  function EncodeAll(us: seq<int>): seq<Byte>
    requires Scalars(us)
  {
    if us == [] then [] else Encode(us[0]) + EncodeAll(us[1..])
  }

  /** The text encodes some code points. */
  ghost predicate IsUtf8(s: seq<Byte>) { exists us: seq<int> :: Scalars(us) && EncodeAll(us) == s }

  lemma EncodedHead(u: int, rest: seq<Byte>)
    requires Scalar(u)
    ensures HeadLen(Encode(u) + rest) == |Encode(u)|
  {
  }

  /** The code point the text starts with. */
  function Decode(s: seq<Byte>): int
    requires HeadLen(s) > 0
  {
    var b := (i: int) requires 0 <= i < |s| => s[i] as int;
    match HeadLen(s)
    case 1 => b(0)
    case 2 => (b(0) - 0xC0) * 64 + (b(1) - 0x80)
    case 3 => (b(0) - 0xE0) * 4096 + (b(1) - 0x80) * 64 + (b(2) - 0x80)
    case _ => (b(0) - 0xF0) * 262144 + (b(1) - 0x80) * 4096 + (b(2) - 0x80) * 64 + (b(3) - 0x80)
  }

  /** Base 64 digits are found again. */
  lemma Digits(a: nat, b: nat, c: nat)
    requires b < 64 && c < 64
    ensures var u := (a * 64 + b) * 64 + c; u / 4096 == a && u / 64 == a * 64 + b && u / 64 % 64 == b && u % 64 == c
  {
  }

  lemma DecodedTwo(s: seq<Byte>)
    requires HeadLen(s) == 2
    ensures Scalar(Decode(s)) && Encode(Decode(s)) == s[..2]
  {
    Digits(0, s[0] as nat - 0xC0, s[1] as nat - 0x80);
  }

  lemma DecodedThree(s: seq<Byte>)
    requires HeadLen(s) == 3
    ensures Scalar(Decode(s)) && Encode(Decode(s)) == s[..3]
  {
    Digits(s[0] as nat - 0xE0, s[1] as nat - 0x80, s[2] as nat - 0x80);
  }

  lemma DecodedFour(s: seq<Byte>)
    requires HeadLen(s) == 4
    ensures Scalar(Decode(s)) && Encode(Decode(s)) == s[..4]
  {
    var a, b := s[0] as nat - 0xF0, s[1] as nat - 0x80;
    Digits(a * 64 + b, s[2] as nat - 0x80, s[3] as nat - 0x80);
    Digits(0, a, b);
  }

  lemma DecodedHead(s: seq<Byte>)
    requires HeadLen(s) > 0
    ensures Scalar(Decode(s)) && s == Encode(Decode(s)) + s[HeadLen(s)..]
  {
    var n := HeadLen(s);
    if n == 2 { DecodedTwo(s); } else if n == 3 { DecodedThree(s); } else if n == 4 { DecodedFour(s); }
    assert s == s[..n] + s[n..];
  }

  lemma {:induction false} EncodedIsValid(us: seq<int>)
    requires Scalars(us)
    ensures Valid(EncodeAll(us))
  {
    if us == [] {
    } else {
      var rest := EncodeAll(us[1..]);
      EncodedIsValid(us[1..]);
      EncodedHead(us[0], rest);
      assert (Encode(us[0]) + rest)[|Encode(us[0])|..] == rest;
    }
  }

  lemma {:induction false} ValidIsEncoded(s: seq<Byte>) returns (us: seq<int>)
    requires Valid(s)
    ensures Scalars(us) && EncodeAll(us) == s
    decreases |s|
  {
    if s == [] {
      us := [];
    } else {
      var rest := ValidIsEncoded(s[HeadLen(s)..]);
      DecodedHead(s);
      us := [Decode(s)] + rest;
      assert us[1..] == rest;
    }
  }

  /** The byte-wise test accepts exactly the encodings of code points. */
  lemma ValidIffUtf8(s: seq<Byte>)
    ensures Valid(s) <==> IsUtf8(s)
  {
    if Valid(s) {
      var us := ValidIsEncoded(s);
    } else if IsUtf8(s) {
      var us: seq<int> :| Scalars(us) && EncodeAll(us) == s;
      EncodedIsValid(us);
    }
  }

  /** Text within the limit is stored as it is; of longer text the longest prefix within the limit that
      encodes code points. */
  lemma ClippedOutcome(s: seq<Byte>, limit: nat)
    ensures |s| <= limit ==> Clipped(s, limit) == s
    ensures |s| > limit ==>
      var n := |Clipped(s, limit)|;
      n <= limit && Clipped(s, limit) == s[..n] && IsUtf8(s[..n]) && forall k :: n < k <= limit ==> !IsUtf8(s[..k])
  {
    if |s| > limit {
      var n := LongestValid(s, limit);
      assert Clipped(s, limit) == s[..n] && |Clipped(s, limit)| == n;
      ValidIffUtf8(s[..n]);
      forall k | n < k <= limit ensures !IsUtf8(s[..k]) { ValidIffUtf8(s[..k]); }
    }
  }
}
