/**
 UTF-8 as Rust's `str` requires it (RFC 3629, section 4): the decoding that
 `read_to_string` performs before it hands text back, and the encoding that
 writing a `String` performs. Ill-formed input (overlong forms, surrogates,
 code points above U+10FFFF, truncated sequences) is rejected.
 */
module Utf8 {
  import opened Common

  predicate IsCont(b: byte) {
    0x80 <= b <= 0xBF
  }

  /** Length of the well-formed sequence at the head of `bs`, 0 if ill-formed. */
  function HeadLength(bs: seq<byte>): (n: nat)
    requires |bs| > 0
    ensures n <= 4 && n <= |bs|
  {
    var b0 := bs[0];
    if b0 <= 0x7F then 1
    else if 0xC2 <= b0 <= 0xDF then
      (if |bs| >= 2 && IsCont(bs[1]) then 2 else 0)
    else if b0 == 0xE0 then
      (if |bs| >= 3 && 0xA0 <= bs[1] <= 0xBF && IsCont(bs[2]) then 3 else 0)
    else if (0xE1 <= b0 <= 0xEC) || (0xEE <= b0 <= 0xEF) then
      (if |bs| >= 3 && IsCont(bs[1]) && IsCont(bs[2]) then 3 else 0)
    else if b0 == 0xED then
      (if |bs| >= 3 && 0x80 <= bs[1] <= 0x9F && IsCont(bs[2]) then 3 else 0)
    else if b0 == 0xF0 then
      (if |bs| >= 4 && 0x90 <= bs[1] <= 0xBF && IsCont(bs[2]) && IsCont(bs[3]) then 4 else 0)
    else if 0xF1 <= b0 <= 0xF3 then
      (if |bs| >= 4 && IsCont(bs[1]) && IsCont(bs[2]) && IsCont(bs[3]) then 4 else 0)
    else if b0 == 0xF4 then
      (if |bs| >= 4 && 0x80 <= bs[1] <= 0x8F && IsCont(bs[2]) && IsCont(bs[3]) then 4 else 0)
    else 0
  }

  predicate IsScalar(v: int) {
    (0 <= v < 0xD800) || (0xE000 <= v < 0x110000)
  }

  /** The code point spelled by the well-formed head sequence of `bs`. */
  function HeadScalar(bs: seq<byte>): (v: int)
    requires |bs| > 0 && HeadLength(bs) > 0
    ensures IsScalar(v)
  {
    var n := HeadLength(bs);
    if n == 1 then bs[0] as int
    else if n == 2 then (bs[0] as int - 0xC0) * 64 + (bs[1] as int - 0x80)
    else if n == 3 then
      (bs[0] as int - 0xE0) * 4096 + (bs[1] as int - 0x80) * 64 + (bs[2] as int - 0x80)
    else
      (bs[0] as int - 0xF0) * 262144 + (bs[1] as int - 0x80) * 4096
      + (bs[2] as int - 0x80) * 64 + (bs[3] as int - 0x80)
  }

  /** `String::from_utf8`: the text, or None when the bytes are not UTF-8. */
  function Decode(bs: seq<byte>): Option<string>
    decreases |bs|
  {
    if bs == [] then Some([])
    else
      var n := HeadLength(bs);
      if n == 0 then None
      else
        match Decode(bs[n..])
        case None => None
        case Some(rest) => Some([HeadScalar(bs) as char] + rest)
  }

  predicate Valid(bs: seq<byte>) {
    Decode(bs).Some?
  }

  /** The UTF-8 bytes of one character. */
  function EncodeChar(c: char): (bs: seq<byte>)
    ensures 1 <= |bs| <= 4
  {
    var v := c as int;
    if v < 0x80 then [v as byte]
    else if v < 0x800 then [(0xC0 + v / 64) as byte, (0x80 + v % 64) as byte]
    else if v < 0x10000 then
      [(0xE0 + v / 4096) as byte, (0x80 + (v / 64) % 64) as byte, (0x80 + v % 64) as byte]
    else
      [(0xF0 + v / 262144) as byte, (0x80 + (v / 4096) % 64) as byte,
       (0x80 + (v / 64) % 64) as byte, (0x80 + v % 64) as byte]
  }

  /** The UTF-8 bytes of a text (what writing a `String` to a file stores). */
  function Encode(s: string): seq<byte>
  {
    if s == [] then [] else EncodeChar(s[0]) + Encode(s[1..])
  }

  lemma {:induction false} EncodeAppend(s: string, t: string)
    ensures Encode(s + t) == Encode(s) + Encode(t)
  {
    if s == [] {
      assert s + t == t;
    } else {
      assert (s + t)[1..] == s[1..] + t;
      EncodeAppend(s[1..], t);
    }
  }

  /** Decoding the head of an encoded character gives back the character. */
  lemma DecodeHeadOfEncodeChar(c: char, rest: seq<byte>)
    ensures HeadLength(EncodeChar(c) + rest) == |EncodeChar(c)|
    ensures HeadScalar(EncodeChar(c) + rest) == c as int
  {
    var v := c as int;
    if v < 0x80 {
    } else if v < 0x800 {
      DecodeTwo(c, rest);
    } else if v < 0x10000 {
      DecodeThree(c, rest);
    } else {
      DecodeFour(c, rest);
    }
  }

  /** Splitting off the last six bits of a number. */
  lemma Split64(v: int)
    requires v >= 0
    ensures v == (v / 64) * 64 + v % 64 && 0 <= v % 64 < 64
  {
  }

  lemma DecodeTwo(c: char, rest: seq<byte>)
    requires 0x80 <= c as int < 0x800
    ensures HeadLength(EncodeChar(c) + rest) == 2 && HeadScalar(EncodeChar(c) + rest) == c as int
  {
    var v := c as int;
    Split64(v);
    var bs := EncodeChar(c) + rest;
    assert bs[0] as int == 0xC0 + v / 64 && bs[1] as int == 0x80 + v % 64;
  }

  lemma DecodeThree(c: char, rest: seq<byte>)
    requires 0x800 <= c as int < 0x10000
    ensures HeadLength(EncodeChar(c) + rest) == 3 && HeadScalar(EncodeChar(c) + rest) == c as int
  {
    var v := c as int;
    var q := v / 64;
    Split64(v);
    Split64(q);
    assert v / 4096 == q / 64;
    var bs := EncodeChar(c) + rest;
    assert bs[0] as int == 0xE0 + q / 64 && bs[1] as int == 0x80 + q % 64 && bs[2] as int == 0x80 + v % 64;
  }

  lemma DecodeFour(c: char, rest: seq<byte>)
    requires 0x10000 <= c as int
    ensures HeadLength(EncodeChar(c) + rest) == 4 && HeadScalar(EncodeChar(c) + rest) == c as int
  {
    var v := c as int;
    var q := v / 64;
    var q2 := q / 64;
    Split64(v);
    Split64(q);
    Split64(q2);
    assert v / 4096 == q2;
    assert v / 262144 == q2 / 64;
    var bs := EncodeChar(c) + rest;
    assert bs[0] as int == 0xF0 + q2 / 64 && bs[1] as int == 0x80 + q2 % 64;
    assert bs[2] as int == 0x80 + q % 64 && bs[3] as int == 0x80 + v % 64;
  }

  lemma DivMod64(q: int, r: int)
    requires 0 <= r < 64
    ensures (q * 64 + r) / 64 == q && (q * 64 + r) % 64 == r
  {
  }

  /** Encoding the code point of a well-formed head gives back its bytes. */
  lemma EncodeCharOfHead(bs: seq<byte>)
    requires |bs| > 0 && HeadLength(bs) > 0
    ensures EncodeChar(HeadScalar(bs) as char) == bs[..HeadLength(bs)]
  {
    var n := HeadLength(bs);
    if n == 2 {
      EncodeTwo(bs);
    } else if n == 3 {
      EncodeThree(bs);
    } else if n == 4 {
      EncodeFour(bs);
    }
  }

  lemma EncodeTwo(bs: seq<byte>)
    requires |bs| > 0 && HeadLength(bs) == 2
    ensures EncodeChar(HeadScalar(bs) as char) == bs[..2]
  {
    DivMod64(bs[0] as int - 0xC0, bs[1] as int - 0x80);
  }

  lemma EncodeThree(bs: seq<byte>)
    requires |bs| > 0 && HeadLength(bs) == 3
    ensures EncodeChar(HeadScalar(bs) as char) == bs[..3]
  {
    var v := HeadScalar(bs);
    var q := (bs[0] as int - 0xE0) * 64 + (bs[1] as int - 0x80);
    assert v == q * 64 + (bs[2] as int - 0x80);
    DivMod64(q, bs[2] as int - 0x80);
    DivMod64(bs[0] as int - 0xE0, bs[1] as int - 0x80);
    assert v / 4096 == (v / 64) / 64;
  }

  lemma EncodeFour(bs: seq<byte>)
    requires |bs| > 0 && HeadLength(bs) == 4
    ensures EncodeChar(HeadScalar(bs) as char) == bs[..4]
  {
    var v := HeadScalar(bs);
    var q2 := (bs[0] as int - 0xF0) * 64 + (bs[1] as int - 0x80);
    var q := q2 * 64 + (bs[2] as int - 0x80);
    assert v == q * 64 + (bs[3] as int - 0x80);
    DivMod64(q, bs[3] as int - 0x80);
    DivMod64(q2, bs[2] as int - 0x80);
    DivMod64(bs[0] as int - 0xF0, bs[1] as int - 0x80);
    assert v / 4096 == (v / 64) / 64;
    assert v / 262144 == ((v / 64) / 64) / 64;
  }

  /** Every text survives an encode/decode round trip. */
  lemma {:induction false} DecodeEncode(s: string)
    ensures Decode(Encode(s)) == Some(s)
  {
    if s != [] {
      var e := EncodeChar(s[0]);
      var bs := Encode(s);
      assert bs == e + Encode(s[1..]);
      DecodeHeadOfEncodeChar(s[0], Encode(s[1..]));
      assert bs[|e|..] == Encode(s[1..]);
      DecodeEncode(s[1..]);
      assert s == [s[0]] + s[1..];
    }
  }

  /** Every decodable byte string survives a decode/encode round trip. */
  lemma {:induction false} EncodeDecode(bs: seq<byte>)
    requires Valid(bs)
    ensures Encode(Decode(bs).value) == bs
  {
    if bs != [] {
      var n := HeadLength(bs);
      assert n > 0;
      var rest := Decode(bs[n..]).value;
      var c := HeadScalar(bs) as char;
      assert Decode(bs) == Some([c] + rest);
      EncodeDecode(bs[n..]);
      EncodeCharOfHead(bs);
      EncodeCons(bs, n, c, rest);
    }
  }

  /** A character followed by a text encodes to the two byte strings joined. */
  lemma EncodeCons(bs: seq<byte>, n: nat, c: char, rest: string)
    requires n <= |bs| && EncodeChar(c) == bs[..n] && Encode(rest) == bs[n..]
    ensures Encode([c] + rest) == bs
  {
    var s := [c] + rest;
    assert s[0] == c && s[1..] == rest;
    assert bs == bs[..n] + bs[n..];
  }
}
