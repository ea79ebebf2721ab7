/**
 * UTF-8 (RFC 3629) for the key payloads exchanged between the keyboard node
 * and the encoder node: the keyboard sends the UTF-8 bytes of a key string,
 * the encoder decodes them and looks at the first character only.
 */
module Utf8 {
  import opened Wrappers
  import opened Bytes

  /** Is `b` a continuation byte, 10xxxxxx? */
  predicate IsContinuation(b: u8) {
    0x80 <= b as int < 0xC0
  }

  /** The 6 payload bits of a continuation byte. */
  function Payload(b: u8): int
    requires IsContinuation(b)
  {
    b as int - 0x80
  }

  /** The encoding of one Unicode scalar value: 1 to 4 bytes. */
  function EncodeChar(c: char): (r: seq<u8>)
    ensures 1 <= |r| <= 4
    ensures |r| == 1 <==> (c as int) < 0x80
    ensures forall k :: 1 <= k < |r| ==> IsContinuation(r[k])
  {
    var cp := c as int;
    if cp < 0x80 then
      [cp as u8]
    else if cp < 0x800 then
      [(0xC0 + cp / 0x40) as u8, (0x80 + cp % 0x40) as u8]
    else if cp < 0x1_0000 then
      [(0xE0 + cp / 0x1000) as u8, (0x80 + (cp / 0x40) % 0x40) as u8, (0x80 + cp % 0x40) as u8]
    else
      [(0xF0 + cp / 0x40000) as u8, (0x80 + (cp / 0x1000) % 0x40) as u8,
       (0x80 + (cp / 0x40) % 0x40) as u8, (0x80 + cp % 0x40) as u8]
  }

  /** The encoding of a string: the encodings of its characters, in order. */
  function Encode(s: string): (r: seq<u8>)
    ensures |r| >= |s|
    ensures s != [] ==> |r| >= |EncodeChar(s[0])| && r[..|EncodeChar(s[0])|] == EncodeChar(s[0])
  {
    if s == [] then [] else EncodeChar(s[0]) + Encode(s[1..])
  }

  /** Is `cp` a Unicode scalar value (a code point that is not a surrogate)? */
  predicate IsScalar(cp: int) {
    0 <= cp < 0xD800 || 0xE000 <= cp < 0x11_0000
  }

  /** A two-byte sequence 110xxxxx 10xxxxxx, rejected when truncated or overlong. */
  function DecodeTwo(b: seq<u8>): (r: Option<(char, nat)>)
    requires |b| >= 1 && 0xC0 <= b[0] as int < 0xE0
  {
    if |b| < 2 || !IsContinuation(b[1]) then None
    else
      var cp := (b[0] as int - 0xC0) * 0x40 + Payload(b[1]);
      if cp < 0x80 then None else Some((cp as char, 2))
  }

  /** A three-byte sequence 1110xxxx 10xxxxxx 10xxxxxx, rejected when truncated, overlong or a surrogate. */
  function DecodeThree(b: seq<u8>): (r: Option<(char, nat)>)
    requires |b| >= 1 && 0xE0 <= b[0] as int < 0xF0
  {
    if |b| < 3 || !IsContinuation(b[1]) || !IsContinuation(b[2]) then None
    else
      var cp := (b[0] as int - 0xE0) * 0x1000 + Payload(b[1]) * 0x40 + Payload(b[2]);
      if cp < 0x800 || !IsScalar(cp) then None else Some((cp as char, 3))
  }

  /** A four-byte sequence 11110xxx 10xxxxxx 10xxxxxx 10xxxxxx, rejected when truncated, overlong or above U+10FFFF. */
  function DecodeFour(b: seq<u8>): (r: Option<(char, nat)>)
    requires |b| >= 1 && 0xF0 <= b[0] as int < 0xF8
  {
    if |b| < 4 || !IsContinuation(b[1]) || !IsContinuation(b[2]) || !IsContinuation(b[3]) then None
    else
      var cp := (b[0] as int - 0xF0) * 0x40000 + Payload(b[1]) * 0x1000 + Payload(b[2]) * 0x40 + Payload(b[3]);
      if cp < 0x1_0000 || !IsScalar(cp) then None else Some((cp as char, 4))
  }

  /**
   * Strict decoding of the first scalar value of `b`: the character and the
   * number of bytes it takes, or None for an empty, truncated, overlong,
   * surrogate or out-of-range sequence.
   */
  function DecodeFirst(b: seq<u8>): (r: Option<(char, nat)>)
    ensures r.Some? ==> 1 <= r.value.1 <= |b| && r.value.1 <= 4
  {
    if |b| == 0 then None
    else
      var b0 := b[0] as int;
      if b0 < 0x80 then Some((b0 as char, 1))
      else if 0xC0 <= b0 < 0xE0 then DecodeTwo(b)
      else if 0xE0 <= b0 < 0xF0 then DecodeThree(b)
      else if 0xF0 <= b0 < 0xF8 then DecodeFour(b)
      else None
  }

  /** Euclidean division of a natural number by a positive constant. */
  lemma DivMod(x: int, k: int)
    requires k > 0 && x >= 0
    ensures x == (x / k) * k + x % k && 0 <= x % k < k
  {
  }

  /** The two-byte case of `DecodeEncodeChar`. */
  lemma DecodeEncode2(c: char, rest: seq<u8>)
    requires 0x80 <= c as int < 0x800
    ensures DecodeFirst(EncodeChar(c) + rest) == Some((c, 2))
  {
    var cp := c as int;
    var b := EncodeChar(c) + rest;
    assert b[0] as int == 0xC0 + cp / 0x40 && b[1] as int == 0x80 + cp % 0x40;
    DivMod(cp, 0x40);
  }

  /** A natural number below 2^16 split into 4 + 6 + 6 bits. */
  lemma Split3(cp: int)
    requires 0 <= cp
    ensures cp == (cp / 0x1000) * 0x1000 + ((cp / 0x40) % 0x40) * 0x40 + cp % 0x40
  {
    DivMod(cp, 0x40);
    DivMod(cp / 0x40, 0x40);
    assert cp / 0x1000 == (cp / 0x40) / 0x40;
  }

  /** A natural number split into 3 + 6 + 6 + 6 bits. */
  lemma Split4(cp: int)
    requires 0 <= cp
    ensures cp == (cp / 0x40000) * 0x40000 + ((cp / 0x1000) % 0x40) * 0x1000 + ((cp / 0x40) % 0x40) * 0x40 + cp % 0x40
  {
    Split3(cp);
    DivMod(cp / 0x1000, 0x40);
    assert cp / 0x40000 == (cp / 0x1000) / 0x40;
  }

  /** The three-byte case of `DecodeEncodeChar`. */
  lemma DecodeEncode3(c: char, rest: seq<u8>)
    requires 0x800 <= c as int < 0x1_0000
    ensures DecodeFirst(EncodeChar(c) + rest) == Some((c, 3))
  {
    var cp := c as int;
    var b := EncodeChar(c) + rest;
    assert b[0] as int == 0xE0 + cp / 0x1000;
    assert Payload(b[1]) == (cp / 0x40) % 0x40 && Payload(b[2]) == cp % 0x40;
    Split3(cp);
  }

  /** A lead byte 11110xxx and three continuation bytes decode to the 21 bits they carry. */
  lemma FourBytes(x0: int, x1: int, x2: int, x3: int, rest: seq<u8>)
    requires 0 <= x0 < 8 && 0 <= x1 < 0x40 && 0 <= x2 < 0x40 && 0 <= x3 < 0x40
    ensures var cp := x0 * 0x40000 + x1 * 0x1000 + x2 * 0x40 + x3;
      DecodeFirst([(0xF0 + x0) as u8, (0x80 + x1) as u8, (0x80 + x2) as u8, (0x80 + x3) as u8] + rest)
        == if cp < 0x1_0000 || !IsScalar(cp) then None else Some((cp as char, 4))
  {
    var b := [(0xF0 + x0) as u8, (0x80 + x1) as u8, (0x80 + x2) as u8, (0x80 + x3) as u8] + rest;
    assert b[0] as int == 0xF0 + x0;
    assert Payload(b[1]) == x1 && Payload(b[2]) == x2 && Payload(b[3]) == x3;
  }

  /** The four-byte case of `DecodeEncodeChar`. */
  lemma DecodeEncode4(c: char, rest: seq<u8>)
    requires 0x1_0000 <= c as int
    ensures DecodeFirst(EncodeChar(c) + rest) == Some((c, 4))
  {
    var cp := c as int;
    var x0, x1, x2, x3 := cp / 0x40000, (cp / 0x1000) % 0x40, (cp / 0x40) % 0x40, cp % 0x40;
    Split4(cp);
    assert x0 < 8;
    assert EncodeChar(c) == [(0xF0 + x0) as u8, (0x80 + x1) as u8, (0x80 + x2) as u8, (0x80 + x3) as u8];
    FourBytes(x0, x1, x2, x3, rest);
    assert IsScalar(cp);
  }

  /** Decoding the encoding of a character, whatever follows it, gives the character back. */
  lemma DecodeEncodeChar(c: char, rest: seq<u8>)
    ensures DecodeFirst(EncodeChar(c) + rest) == Some((c, |EncodeChar(c)|))
  {
    var cp := c as int;
    if cp < 0x80 {
      assert (EncodeChar(c) + rest)[0] as int == cp;
    } else if cp < 0x800 {
      DecodeEncode2(c, rest);
    } else if cp < 0x1_0000 {
      DecodeEncode3(c, rest);
    } else {
      DecodeEncode4(c, rest);
    }
  }

  /** The first character decoded from the encoding of a non-empty string is its first character. */
  lemma DecodeEncodeFirst(s: string)
    requires s != []
    ensures DecodeFirst(Encode(s)) == Some((s[0], |EncodeChar(s[0])|))
  {
    DecodeEncodeChar(s[0], Encode(s[1..]));
  }

  /** Strict decoding of a whole byte string: its characters, or None at the first malformed sequence. */
  function Decode(b: seq<u8>): (r: Option<string>)
    decreases |b|
  {
    if b == [] then Some([])
    else match DecodeFirst(b) {
      case None => None
      case Some((c, n)) =>
        match Decode(b[n..]) {
          case None => None
          case Some(s) => Some([c] + s)
        }
    }
  }

  /** Decoding the encoding of any string gives the string back. */
  lemma {:induction false} DecodeEncode(s: string)
    ensures Decode(Encode(s)) == Some(s)
  {
    if s != [] {
      var head := EncodeChar(s[0]);
      DecodeEncodeChar(s[0], Encode(s[1..]));
      DecodeEncode(s[1..]);
      assert (head + Encode(s[1..]))[|head|..] == Encode(s[1..]);
      assert [s[0]] + s[1..] == s;
    }
  }
}
