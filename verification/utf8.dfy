/** UTF-8 (RFC 3629) on Dafny strings, whose characters are Unicode scalar values: what
    Python's `str.encode('utf-8')` and strict `bytes.decode('utf-8')` do. */
module Utf8 {
  import opened Wrappers

  type byte = x: int | 0 <= x < 256

  predicate IsContinuation(b: byte) {
    0x80 <= b < 0xC0
  }

  /** The six payload bits of a continuation byte. */
  function Low(b: byte): int {
    b as int - 0x80
  }

  /** The bytes of one character. */
  function EncodeChar(c: char): (bs: seq<byte>)
    ensures 1 <= |bs| <= 4
    ensures |bs| == 1 <==> c as int < 0x80
    ensures forall i :: 1 <= i < |bs| ==> IsContinuation(bs[i])
  {
    var cp := c as int;
    if cp < 0x80 then [cp]
    else if cp < 0x800 then [0xC0 + cp / 64, 0x80 + cp % 64]
    else if cp < 0x10000 then [0xE0 + cp / 4096, 0x80 + (cp / 64) % 64, 0x80 + cp % 64]
    else [0xF0 + cp / 262144, 0x80 + (cp / 4096) % 64, 0x80 + (cp / 64) % 64, 0x80 + cp % 64]
  }

  function Encode(s: string): (bs: seq<byte>)
    ensures |bs| >= |s|
    decreases |s|
  {
    if |s| == 0 then [] else EncodeChar(s[0]) + Encode(s[1..])
  }

  predicate IsScalar(cp: int) {
    0 <= cp < 0xD800 || 0xE000 <= cp < 0x110000
  }

  /** The first character of `bs` and the number of bytes it takes, when `bs` starts with
      a well-formed sequence (no overlong form, no surrogate, nothing above U+10FFFF). */
  function DecodeChar(bs: seq<byte>): (r: Option<(char, nat)>)
    ensures r.Some? ==> 1 <= r.value.1 <= |bs| && r.value.1 <= 4
  {
    if |bs| == 0 then None
    else
      var b0: int := bs[0];
      if b0 < 0x80 then Some((b0 as char, 1))
      else if 0xC0 <= b0 < 0xE0 && |bs| >= 2 && IsContinuation(bs[1]) then
        var cp := (b0 - 0xC0) * 64 + Low(bs[1]);
        if 0x80 <= cp then Some((cp as char, 2)) else None
      else if 0xE0 <= b0 < 0xF0 && |bs| >= 3 && IsContinuation(bs[1]) && IsContinuation(bs[2]) then
        var cp := (b0 - 0xE0) * 4096 + Low(bs[1]) * 64 + Low(bs[2]);
        if 0x800 <= cp && IsScalar(cp) then Some((cp as char, 3)) else None
      else if 0xF0 <= b0 < 0xF8 && |bs| >= 4 && IsContinuation(bs[1]) && IsContinuation(bs[2])
              && IsContinuation(bs[3]) then
        var cp := (b0 - 0xF0) * 262144 + Low(bs[1]) * 4096 + Low(bs[2]) * 64 + Low(bs[3]);
        if 0x10000 <= cp < 0x110000 then Some((cp as char, 4)) else None
      else None
  }

  /** Strict decoding: `None` where Python raises `UnicodeDecodeError`. */
  function Decode(bs: seq<byte>): Option<string>
    decreases |bs|
  {
    if |bs| == 0 then Some("")
    else
      match DecodeChar(bs)
      case None => None
      case Some((c, n)) =>
        match Decode(bs[n..])
        case None => None
        case Some(rest) => Some([c] + rest)
  }

  lemma DecodeEncode2(cp: int, rest: seq<byte>)
    requires 0x80 <= cp < 0x800
    ensures var bs := [0xC0 + cp / 64, 0x80 + cp % 64] + rest;
      bs[0] as int - 0xC0 == cp / 64 && Low(bs[1]) == cp % 64 && (cp / 64) * 64 + cp % 64 == cp
  {
  }

  lemma DecodeEncode3(cp: int)
    requires 0x800 <= cp < 0x10000
    ensures (cp / 4096) * 4096 + ((cp / 64) % 64) * 64 + cp % 64 == cp
  {
    assert cp / 64 == (cp / 4096) * 64 + (cp / 64) % 64;
  }

  lemma DecodeEncode4(cp: int)
    requires 0x10000 <= cp < 0x110000
    ensures (cp / 262144) * 262144 + ((cp / 4096) % 64) * 4096 + ((cp / 64) % 64) * 64 + cp % 64 == cp
  {
    assert cp / 64 == (cp / 4096) * 64 + (cp / 64) % 64;
    assert cp / 4096 == (cp / 262144) * 64 + (cp / 4096) % 64;
  }

  lemma DecodeEncodeChar(c: char, rest: seq<byte>)
    ensures DecodeChar(EncodeChar(c) + rest) == Some((c, |EncodeChar(c)|))
  {
    var cp := c as int;
    var bs := EncodeChar(c) + rest;
    if cp < 0x80 {
    } else if cp < 0x800 {
      DecodeEncode2(cp, rest);
    } else if cp < 0x10000 {
      assert bs[0] == 0xE0 + cp / 4096 && Low(bs[1]) == (cp / 64) % 64 && Low(bs[2]) == cp % 64;
      DecodeEncode3(cp);
    } else {
      assert bs[0] == 0xF0 + cp / 262144 && Low(bs[1]) == (cp / 4096) % 64;
      assert Low(bs[2]) == (cp / 64) % 64 && Low(bs[3]) == cp % 64;
      DecodeEncode4(cp);
    }
  }

  /** Decoding what was encoded gives the text back. */
  lemma {:induction false} DecodeEncode(s: string)
    ensures Decode(Encode(s)) == Some(s)
    decreases |s|
  {
    if |s| > 0 {
      var e := EncodeChar(s[0]);
      var bs := Encode(s);
      assert bs == e + Encode(s[1..]);
      DecodeEncodeChar(s[0], Encode(s[1..]));
      assert bs[|e|..] == Encode(s[1..]);
      DecodeEncode(s[1..]);
      assert [s[0]] + s[1..] == s;
    }
  }

  lemma EncodeTwo(b0: byte, b1: byte)
    requires 0xC0 <= b0 < 0xE0 && IsContinuation(b1) && 0x80 <= (b0 as int - 0xC0) * 64 + Low(b1)
    ensures EncodeChar(((b0 as int - 0xC0) * 64 + Low(b1)) as char) == [b0, b1]
  {
  }

  lemma EncodeThree(b0: byte, b1: byte, b2: byte)
    requires 0xE0 <= b0 < 0xF0 && IsContinuation(b1) && IsContinuation(b2)
    requires var cp := (b0 as int - 0xE0) * 4096 + Low(b1) * 64 + Low(b2); 0x800 <= cp && IsScalar(cp)
    ensures EncodeChar(((b0 as int - 0xE0) * 4096 + Low(b1) * 64 + Low(b2)) as char) == [b0, b1, b2]
  {
    var cp := (b0 as int - 0xE0) * 4096 + Low(b1) * 64 + Low(b2);
    assert cp / 64 == (b0 as int - 0xE0) * 64 + Low(b1);
  }

  lemma EncodeFour(b0: byte, b1: byte, b2: byte, b3: byte)
    requires 0xF0 <= b0 < 0xF8 && IsContinuation(b1) && IsContinuation(b2) && IsContinuation(b3)
    requires var cp := (b0 as int - 0xF0) * 262144 + Low(b1) * 4096 + Low(b2) * 64 + Low(b3);
      0x10000 <= cp < 0x110000
    ensures EncodeChar(((b0 as int - 0xF0) * 262144 + Low(b1) * 4096 + Low(b2) * 64 + Low(b3)) as char)
      == [b0, b1, b2, b3]
  {
    var cp := (b0 as int - 0xF0) * 262144 + Low(b1) * 4096 + Low(b2) * 64 + Low(b3);
    assert cp / 64 == ((b0 as int - 0xF0) * 64 + Low(b1)) * 64 + Low(b2);
    assert cp / 4096 == (b0 as int - 0xF0) * 64 + Low(b1);
  }

  lemma EncodeDecodeChar(bs: seq<byte>)
    requires DecodeChar(bs).Some?
    ensures var (c, n) := DecodeChar(bs).value; EncodeChar(c) == bs[..n]
  {
    var n := DecodeChar(bs).value.1;
    if n == 2 {
      EncodeTwo(bs[0], bs[1]);
      assert bs[..2] == [bs[0], bs[1]];
    } else if n == 3 {
      EncodeThree(bs[0], bs[1], bs[2]);
      assert bs[..3] == [bs[0], bs[1], bs[2]];
    } else if n == 4 {
      EncodeFour(bs[0], bs[1], bs[2], bs[3]);
      assert bs[..4] == [bs[0], bs[1], bs[2], bs[3]];
    }
  }

  lemma DecodeCons(bs: seq<byte>)
    requires DecodeChar(bs).Some? && Decode(bs[DecodeChar(bs).value.1..]).Some?
    ensures Decode(bs) == Some([DecodeChar(bs).value.0] + Decode(bs[DecodeChar(bs).value.1..]).value)
  {
  }

  /** Strict decoding accepts only what encoding produces: a successful decode re-encodes
      to the same bytes. */
  lemma {:induction false} EncodeDecode(bs: seq<byte>)
    requires Decode(bs).Some?
    ensures Encode(Decode(bs).value) == bs
    decreases |bs|
  {
    if |bs| > 0 {
      var (c, n) := DecodeChar(bs).value;
      EncodeDecodeChar(bs);
      EncodeDecode(bs[n..]);
      DecodeCons(bs);
      EncodeCons(c, Decode(bs[n..]).value);
      assert bs == bs[..n] + bs[n..];
    }
  }

  lemma EncodeCons(c: char, s: string)
    ensures Encode([c] + s) == EncodeChar(c) + Encode(s)
  {
    assert ([c] + s)[1..] == s;
  }

  /** Encoding distributes over concatenation. */
  lemma {:induction false} EncodeAppend(s: string, t: string)
    ensures Encode(s + t) == Encode(s) + Encode(t)
    decreases |s|
  {
    if |s| > 0 {
      assert (s + t)[1..] == s[1..] + t;
      EncodeAppend(s[1..], t);
    } else {
      assert s + t == t;
    }
  }
}
