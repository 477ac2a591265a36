/** The lowercase base16 encoding (section 8 of RFC 4648) that turns a SHA-256 digest
    into the hex string used as a default vector id. Each byte goes through
    `b.toString(16).padStart(2, '0')` and the pieces are joined with no separator. */
module Hex {
  import opened Wrappers

  newtype uint8 = x: int | 0 <= x < 256

  /** The 32 bytes of a SHA-256 digest (FIPS 180-4). */
  type Digest = s: seq<uint8> | |s| == 32 witness seq(32, _ => 0)

  /** The sixteen characters of the lowercase alphabet: `0`-`9` and `a`-`f`. */
  predicate IsHexDigit(c: char)
  {
    '0' <= c <= '9' || 'a' <= c <= 'f'
  }

  /** The lowercase hex digit for a value below 16. */
  function Digit(d: int): (c: char)
    requires 0 <= d < 16
    ensures IsHexDigit(c)
  {
    if d < 10 then ('0' as int + d) as char else ('a' as int + d - 10) as char
  }

  /** The value of a lowercase hex digit; anything else is not a digit. */
  function DigitValue(c: char): (r: Option<int>)
    ensures r.Some? <==> IsHexDigit(c)
    ensures r.Some? ==> 0 <= r.value < 16 && Digit(r.value) == c
  {
    if '0' <= c <= '9' then Some(c as int - '0' as int)
    else if 'a' <= c <= 'f' then Some(c as int - 'a' as int + 10)
    else None
  }

  lemma DigitValueOfDigit(d: int)
    requires 0 <= d < 16
    ensures DigitValue(Digit(d)) == Some(d)
  {
  }

  predicate IsLowerHex(s: string)
  {
    forall i :: 0 <= i < |s| ==> IsHexDigit(s[i])
  }

  /** The number a run of lowercase hex digits denotes, most significant digit first. */
  function HexValue(s: string): nat
    requires IsLowerHex(s)
  {
    if |s| == 0 then 0
    else HexValue(s[..|s| - 1]) * 16 + DigitValue(s[|s| - 1]).value
  }

  /** `n.toString(16)` for a non-negative integer: the shortest run of lowercase hex
      digits, most significant first. */
  function ToString16(n: nat): (s: string)
    ensures 1 <= |s| && IsLowerHex(s)
    ensures n < 16 <==> |s| == 1
    ensures n < 16 ==> s == [Digit(n)]
    decreases n
  {
    if n < 16 then [Digit(n)] else ToString16(n / 16) + [Digit(n % 16)]
  }

  /** The digits `toString(16)` produces denote the number, with no leading zero. */
  lemma {:induction false} ToString16Denotes(n: nat)
    ensures HexValue(ToString16(n)) == n
    ensures |ToString16(n)| == 1 || ToString16(n)[0] != '0'
    decreases n
  {
    var s := ToString16(n);
    if n < 16 {
      DigitValueOfDigit(n);
      assert s[..|s| - 1] == [];
    } else {
      var t := ToString16(n / 16);
      ToString16Denotes(n / 16);
      assert s == t + [Digit(n % 16)];
      assert s[..|s| - 1] == t;
      assert s[0] == t[0];
      DigitValueOfDigit(n % 16);
      if n / 16 < 16 {
        DigitValueOfDigit(n / 16);
      }
    }
  }

  /** `s.padStart(len, fill)` with a one-character filler. */
  function PadStart(s: string, len: nat, fill: char): (r: string)
    ensures |r| == if |s| < len then len else |s|
    ensures r[|r| - |s|..] == s
    ensures forall i :: 0 <= i < |r| - |s| ==> r[i] == fill
  {
    if |s| < len then seq(len - |s|, _ => fill) + s else s
  }

  /** A byte value splits into its high and low hex digit and is rebuilt from them. */
  lemma SplitByte(b: int)
    requires 0 <= b < 256
    ensures 0 <= b / 16 < 16 && 0 <= b % 16 < 16 && b == b / 16 * 16 + b % 16
  {
  }

  lemma JoinByte(hi: int, lo: int)
    requires 0 <= hi < 16 && 0 <= lo < 16
    ensures 0 <= hi * 16 + lo < 256 && (hi * 16 + lo) / 16 == hi && (hi * 16 + lo) % 16 == lo
  {
  }

  /** One byte as exactly two lowercase hex digits, zero-padded. */
  function ByteToHex(b: uint8): (r: string)
    ensures r == [Digit(b as int / 16), Digit(b as int % 16)]
  {
    var n := b as int;
    SplitByte(n);
    if n < 16 then
      assert ToString16(n) == [Digit(n)];
      assert n / 16 == 0 && n % 16 == n;
      assert PadStart([Digit(n)], 2, '0') == ['0'] + [Digit(n)];
      PadStart(ToString16(b as nat), 2, '0')
    else
      assert ToString16(n / 16) == [Digit(n / 16)];
      assert ToString16(n) == [Digit(n / 16), Digit(n % 16)];
      PadStart(ToString16(b as nat), 2, '0')
  }

  /** `bytes.map(ByteToHex).join('')`. */
  function Encode(bytes: seq<uint8>): (r: string)
    ensures |r| == 2 * |bytes|
  {
    if |bytes| == 0 then "" else ByteToHex(bytes[0]) + Encode(bytes[1..])
  }

  /** Byte i of the input sits at positions 2i and 2i+1 of the output, high digit first. */
  lemma {:induction false} EncodeAt(bytes: seq<uint8>, i: nat)
    requires i < |bytes|
    ensures Encode(bytes)[2 * i] == Digit(bytes[i] as int / 16)
    ensures Encode(bytes)[2 * i + 1] == Digit(bytes[i] as int % 16)
  {
    var b := bytes[0] as int;
    SplitByte(b);
    assert Encode(bytes) == [Digit(b / 16), Digit(b % 16)] + Encode(bytes[1..]);
    if i > 0 {
      EncodeAt(bytes[1..], i - 1);
      assert bytes[1..][i - 1] == bytes[i];
    }
  }

  /** Every character of an encoding is a lowercase hex digit. */
  lemma EncodeIsLowerHex(bytes: seq<uint8>)
    ensures IsLowerHex(Encode(bytes))
  {
  }

  /** The inverse of `Encode`: pairs of lowercase hex digits back to bytes. */
  function Decode(s: string): (r: Option<seq<uint8>>)
    ensures r.Some? ==> 2 * |r.value| == |s|
    decreases |s|
  {
    if |s| == 0 then Some([])
    else if |s| == 1 then None
    else
      var hi := DigitValue(s[0]);
      var lo := DigitValue(s[1]);
      var rest := Decode(s[2..]);
      if hi.Some? && lo.Some? && rest.Some? then
        JoinByte(hi.value, lo.value);
        Some([(hi.value * 16 + lo.value) as uint8] + rest.value)
      else None
  }

  /** Decoding a leading pair of digits. */
  lemma DecodePair(hi: int, lo: int, rest: string)
    requires 0 <= hi < 16 && 0 <= lo < 16
    ensures 0 <= hi * 16 + lo < 256
    ensures Decode([Digit(hi), Digit(lo)] + rest) ==
              if Decode(rest).Some? then Some([(hi * 16 + lo) as uint8] + Decode(rest).value) else None
  {
    var s := [Digit(hi), Digit(lo)] + rest;
    assert s[0] == Digit(hi) && s[1] == Digit(lo) && s[2..] == rest;
    DigitValueOfDigit(hi);
    DigitValueOfDigit(lo);
  }

  /** The encoding of a non-empty byte string starts with its first byte's two digits. */
  lemma EncodeCons(bytes: seq<uint8>)
    requires |bytes| > 0
    ensures 0 <= bytes[0] as int / 16 < 16 && 0 <= bytes[0] as int % 16 < 16
    ensures Encode(bytes) == [Digit(bytes[0] as int / 16), Digit(bytes[0] as int % 16)] + Encode(bytes[1..])
  {
  }

  /** Decoding a byte's two digits in front of a decodable tail. */
  lemma DecodeStep(b: uint8, tail: string, rest: seq<uint8>)
    requires Decode(tail) == Some(rest)
    ensures Decode([Digit(b as int / 16), Digit(b as int % 16)] + tail) == Some([b] + rest)
  {
    var hi, lo := b as int / 16, b as int % 16;
    SplitByte(b as int);
    DecodePair(hi, lo, tail);
    assert (hi * 16 + lo) as uint8 == b;
  }

  /** Decoding the encoding gives back the bytes. */
  lemma {:induction false} DecodeEncode(bytes: seq<uint8>)
    ensures Decode(Encode(bytes)) == Some(bytes)
  {
    if |bytes| > 0 {
      EncodeCons(bytes);
      DecodeEncode(bytes[1..]);
      DecodeStep(bytes[0], Encode(bytes[1..]), bytes[1..]);
      assert [bytes[0]] + bytes[1..] == bytes;
    }
  }

  /** Whatever decodes is the encoding of what it decodes to: the encoding is canonical. */
  lemma {:induction false} EncodeDecode(s: string)
    requires Decode(s).Some?
    ensures Encode(Decode(s).value) == s
  {
    if |s| > 0 {
      var hi := DigitValue(s[0]).value;
      var lo := DigitValue(s[1]).value;
      var rest := s[2..];
      assert s == [Digit(hi), Digit(lo)] + rest;
      DecodePair(hi, lo, rest);
      EncodeDecode(rest);
      JoinByte(hi, lo);
      var bytes := [(hi * 16 + lo) as uint8] + Decode(rest).value;
      EncodeCons(bytes);
      assert bytes[1..] == Decode(rest).value;
    }
  }

  /** The hex digest of a message: what the SHA-256 step produces, given the digest
      function that the runtime's crypto library computes. */
  function Sha256Hex(digest: string -> Digest, message: string): (r: string)
    ensures |r| == 64 && IsLowerHex(r)
    ensures Decode(r) == Some(digest(message))
  {
    DecodeEncode(digest(message));
    EncodeIsLowerHex(digest(message));
    Encode(digest(message))
  }
}
