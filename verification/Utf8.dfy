/** sanitizeUTF8 of srv/feeds/parser.go. Well-formedness is the grammar of section 4 of
    RFC 3629; decoding and encoding follow section 3. */
module Utf8 {
  type Byte = b: int | 0 <= b < 256
  type Bytes = seq<Byte>

  const RUNE_ERROR := 0xFFFD

  // ----- The grammar of RFC 3629

  predicate IsTail(b: Byte) {
    0x80 <= b <= 0xBF
  }

  /** UTF8-char: one to four octets. */
  predicate IsChar(s: Bytes) {
    match |s|
    case 1 => s[0] <= 0x7F
    case 2 => 0xC2 <= s[0] <= 0xDF && IsTail(s[1])
    case 3 =>
      && IsTail(s[2])
      && ((s[0] == 0xE0 && 0xA0 <= s[1] <= 0xBF)
         || (0xE1 <= s[0] <= 0xEC && IsTail(s[1]))
         || (s[0] == 0xED && 0x80 <= s[1] <= 0x9F)
         || (0xEE <= s[0] <= 0xEF && IsTail(s[1])))
    case 4 =>
      && IsTail(s[2]) && IsTail(s[3])
      && ((s[0] == 0xF0 && 0x90 <= s[1] <= 0xBF)
         || (0xF1 <= s[0] <= 0xF3 && IsTail(s[1]))
         || (s[0] == 0xF4 && 0x80 <= s[1] <= 0x8F))
    case _ => false
  }

  /** UTF8-octets: a sequence of characters. */
  ghost predicate WellFormed(s: Bytes) {
    s == [] || exists k :: 1 <= k <= |s| && IsChar(s[..k]) && WellFormed(s[k..])
  }

  predicate IsScalar(r: int) {
    0 <= r <= 0x10FFFF && !(0xD800 <= r <= 0xDFFF)
  }

  function Encode(r: int): (s: Bytes)
    requires IsScalar(r)
    ensures IsChar(s)
  {
    if r <= 0x7F then [r]
    else if r <= 0x7FF then [0xC0 + r / 64, 0x80 + r % 64]
    else if r <= 0xFFFF then [0xE0 + r / 64 / 64, 0x80 + r / 64 % 64, 0x80 + r % 64]
    else [0xF0 + r / 64 / 64 / 64, 0x80 + r / 64 / 64 % 64, 0x80 + r / 64 % 64, 0x80 + r % 64]
  }

  // ----- Decoding

  /** Number of octets announced by the first one; 0 when none may start with it. */
  function Announced(b: Byte): nat {
    if b <= 0x7F then 1
    else if 0xC2 <= b <= 0xDF then 2
    else if 0xE0 <= b <= 0xEF then 3
    else if 0xF0 <= b <= 0xF4 then 4
    else 0
  }

  /** The octets allowed second: restricted after 0xE0, 0xED, 0xF0 and 0xF4. */
  predicate AcceptSecond(b0: Byte, b1: Byte) {
    (if b0 == 0xE0 then 0xA0 else if b0 == 0xF0 then 0x90 else 0x80) <= b1 <=
    (if b0 == 0xED then 0x9F else if b0 == 0xF4 then 0x8F else 0xBF)
  }

  /** Six more bits, taken from a continuation octet. */
  function Shift(high: int, tail: Byte): (r: int)
    ensures IsTail(tail) ==> r / 64 == high && r % 64 == tail - 0x80
  {
    high * 64 + (tail - 0x80)
  }

  /** utf8.DecodeRune: the rune and its width, or (RuneError, 1). */
  function DecodeRune(data: Bytes): (int, nat)
    requires data != []
  {
    var b0 := data[0];
    var n := Announced(b0);
    if n == 0 || |data| < n then (RUNE_ERROR, 1)
    else if n == 1 then (b0, 1)
    else if !AcceptSecond(b0, data[1]) then (RUNE_ERROR, 1)
    else if n == 2 then (Shift(b0 - 0xC0, data[1]), 2)
    else if !IsTail(data[2]) then (RUNE_ERROR, 1)
    else if n == 3 then (Shift(Shift(b0 - 0xE0, data[1]), data[2]), 3)
    else if !IsTail(data[3]) then (RUNE_ERROR, 1)
    else (Shift(Shift(Shift(b0 - 0xF0, data[1]), data[2]), data[3]), 4)
  }

  predicate IsInvalid(data: Bytes)
    requires data != []
  {
    DecodeRune(data) == (RUNE_ERROR, 1)
  }

  /** A decoded rune is a scalar value that encodes to the octets read. */
  lemma DecodeThenEncode(data: Bytes)
    requires data != [] && !IsInvalid(data)
    ensures var (r, n) := DecodeRune(data);
            1 <= n <= |data| && IsScalar(r) && Encode(r) == data[..n] && IsChar(data[..n])
  {
    hide Shift;
  }

  /** Decoding succeeds, with the right width, wherever the grammar has a character. */
  lemma CharIsDecoded(data: Bytes, k: nat)
    requires k <= |data| && IsChar(data[..k])
    ensures data != [] && !IsInvalid(data) && DecodeRune(data).1 == k
  {
  }

  /** Every scalar value survives encoding and decoding, whatever follows it. */
  lemma EncodeThenDecode(r: int, rest: Bytes)
    requires IsScalar(r)
    ensures DecodeRune(Encode(r) + rest) == (r, |Encode(r)|)
  {
    hide IsChar;
    assert r == Shift(r / 64, 0x80 + r % 64);
    assert r / 64 == Shift(r / 64 / 64, 0x80 + r / 64 % 64);
    assert r / 64 / 64 == Shift(r / 64 / 64 / 64, 0x80 + r / 64 / 64 % 64);
    hide Shift;
  }

  // ----- Sanitizing

  /** utf8.Valid */
  predicate IsValid(data: Bytes) {
    data == [] || (!IsInvalid(data) && (DecodeThenEncode(data); IsValid(data[DecodeRune(data).1..])))
  }

  lemma {:induction false} ValidIsWellFormed(data: Bytes)
    ensures IsValid(data) <==> WellFormed(data)
  {
    if data != [] {
      if !IsInvalid(data) {
        DecodeThenEncode(data);
        ValidIsWellFormed(data[DecodeRune(data).1..]);
      }
      if WellFormed(data) {
        var k :| 1 <= k <= |data| && IsChar(data[..k]) && WellFormed(data[k..]);
        CharIsDecoded(data, k);
      }
    }
  }

  /** What the loop keeps. */
  function Sanitized(data: Bytes): (r: Bytes) {
    if data == [] then []
    else if IsInvalid(data) then Sanitized(data[1..])
    else
      DecodeThenEncode(data);
      var n := DecodeRune(data).1;
      data[..n] + Sanitized(data[n..])
  }

  predicate StartsWithChar(data: Bytes) {
    exists k :: 0 <= k <= |data| && IsChar(data[..k])
  }

  /** Cutting data into characters and single octets at which no character starts. */
  ghost predicate Segmentation(data: Bytes, pieces: seq<Bytes>) {
    if pieces == [] then data == []
    else
      && pieces[0] <= data
      && (IsChar(pieces[0]) || (|pieces[0]| == 1 && !StartsWithChar(data)))
      && Segmentation(data[|pieces[0]|..], pieces[1..])
  }

  function Chars(pieces: seq<Bytes>): Bytes {
    if pieces == [] then [] else (if IsChar(pieces[0]) then pieces[0] else []) + Chars(pieces[1..])
  }

  lemma InvalidIffNoChar(data: Bytes)
    requires data != []
    ensures IsInvalid(data) <==> !StartsWithChar(data)
  {
    if StartsWithChar(data) {
      var k :| 0 <= k <= |data| && IsChar(data[..k]);
      CharIsDecoded(data, k);
    }
    if !IsInvalid(data) {
      DecodeThenEncode(data);
    }
  }

  /** The output is the characters of the input in order: in any cutting of the input
      into characters and stray octets, exactly the characters are kept. */
  lemma {:induction false} KeepsExactlyTheChars(data: Bytes, pieces: seq<Bytes>)
    requires Segmentation(data, pieces)
    ensures Sanitized(data) == Chars(pieces)
    decreases pieces
  {
    if pieces != [] {
      var p := pieces[0];
      assert data != [] && data[..|p|] == p;
      InvalidIffNoChar(data);
      if IsChar(p) {
        CharIsDecoded(data, |p|);
      }
      KeepsExactlyTheChars(data[|p|..], pieces[1..]);
    }
  }

  /** Every input can be cut that way. */
  lemma {:induction false} SegmentationExists(data: Bytes) returns (pieces: seq<Bytes>)
    ensures Segmentation(data, pieces)
    decreases |data|
  {
    if data == [] {
      pieces := [];
    } else {
      InvalidIffNoChar(data);
      var n := 1;
      if !IsInvalid(data) {
        DecodeThenEncode(data);
        n := DecodeRune(data).1;
      }
      var rest := SegmentationExists(data[n..]);
      pieces := [data[..n]] + rest;
    }
  }

  lemma {:induction false} SanitizedIsValid(data: Bytes)
    ensures IsValid(Sanitized(data))
    decreases |data|
  {
    if data != [] {
      if IsInvalid(data) {
        SanitizedIsValid(data[1..]);
      } else {
        DecodeThenEncode(data);
        var n := DecodeRune(data).1;
        SanitizedIsValid(data[n..]);
        ValidCons(data[..n], Sanitized(data[n..]));
      }
    }
  }

  lemma ValidCons(c: Bytes, rest: Bytes)
    requires IsChar(c) && IsValid(rest)
    ensures IsValid(c + rest)
  {
    assert (c + rest)[..|c|] == c && (c + rest)[|c|..] == rest;
    CharIsDecoded(c + rest, |c|);
  }

  lemma {:induction false} ValidIsUnchanged(data: Bytes)
    requires IsValid(data)
    ensures Sanitized(data) == data
    decreases |data|
  {
    if data != [] {
      DecodeThenEncode(data);
      ValidIsUnchanged(data[DecodeRune(data).1..]);
    }
  }

  lemma {:induction false} NeverLonger(data: Bytes)
    ensures |Sanitized(data)| <= |data|
    ensures !IsValid(data) ==> |Sanitized(data)| < |data|
    decreases |data|
  {
    if data != [] {
      if IsInvalid(data) {
        NeverLonger(data[1..]);
      } else {
        DecodeThenEncode(data);
        NeverLonger(data[DecodeRune(data).1..]);
      }
    }
  }

  /** The output is well-formed, the input comes back exactly when it was well-formed,
      a second pass changes nothing, and invalid octets are dropped, not replaced. */
  lemma SanitizeTheorem(data: Bytes)
    ensures WellFormed(Sanitized(data))
    ensures Sanitized(data) == data <==> WellFormed(data)
    ensures Sanitized(Sanitized(data)) == Sanitized(data)
    ensures |Sanitized(data)| == |data| <==> WellFormed(data)
  {
    SanitizedIsValid(data);
    ValidIsWellFormed(data);
    ValidIsWellFormed(Sanitized(data));
    ValidIsUnchanged(Sanitized(data));
    NeverLonger(data);
    if IsValid(data) {
      ValidIsUnchanged(data);
    }
  }

  /** sanitizeUTF8 */
  method SanitizeUtf8(input: Bytes) returns (r: Bytes)
    ensures r == Sanitized(input)
  {
    if IsValid(input) {
      ValidIsUnchanged(input);
      return input;
    }
    var data, buf: Bytes := input, [];
    while |data| > 0
      invariant buf + Sanitized(data) == Sanitized(input)
      decreases |data|
    {
      var (rune, size) := DecodeRune(data);
      if rune == RUNE_ERROR && size == 1 {
        data := data[1..];
        continue;
      }
      DecodeThenEncode(data);
      buf := buf + Encode(rune);
      data := data[size..];
    }
    return buf;
  }
}
