/** Base64 (RFC 4648): the alphabet of section 4, which Python's `base64.b64encode`
    and `b64decode` use, and the URL-safe alphabet of section 5. The two share their
    first 62 digits and differ in the last two. */
module Base64 {
  import opened Wrappers
  import opened Utf8

  /** An alphabet is given by its digits 62 and 63. */
  datatype Alphabet = Alphabet(c62: char, c63: char)

  const Standard := Alphabet('+', '/')
  const UrlSafe := Alphabet('-', '_')
  const Pad := '='

  predicate IsAlnum(c: char) {
    ('A' <= c <= 'Z') || ('a' <= c <= 'z') || ('0' <= c <= '9')
  }

  /** The last two digits differ from each other, from the first 62 and from the pad. */
  predicate Valid(a: Alphabet) {
    a.c62 != a.c63 && !IsAlnum(a.c62) && !IsAlnum(a.c63) && a.c62 != Pad && a.c63 != Pad
  }

  lemma AlphabetsValid()
    ensures Valid(Standard) && Valid(UrlSafe)
  {
  }

  type digit = x: int | 0 <= x < 64

  /** The character of a digit: `A`-`Z`, `a`-`z`, `0`-`9`, then the alphabet's two. */
  function Digit(a: Alphabet, v: digit): char {
    if v < 26 then (('A' as int) + v) as char
    else if v < 52 then (('a' as int) + v - 26) as char
    else if v < 62 then (('0' as int) + v - 52) as char
    else if v == 62 then a.c62
    else a.c63
  }

  /** The digit a character stands for, if any. */
  function Value(a: Alphabet, c: char): (r: Option<digit>)
    requires Valid(a)
    ensures r.Some? ==> Digit(a, r.value) == c
  {
    if 'A' <= c <= 'Z' then Some(c as int - 'A' as int)
    else if 'a' <= c <= 'z' then Some(c as int - 'a' as int + 26)
    else if '0' <= c <= '9' then Some(c as int - '0' as int + 52)
    else if c == a.c62 then Some(62)
    else if c == a.c63 then Some(63)
    else None
  }

  lemma ValueDigit(a: Alphabet, v: digit)
    requires Valid(a)
    ensures Value(a, Digit(a, v)) == Some(v)
  {
  }

  lemma PadNoValue(a: Alphabet)
    requires Valid(a)
    ensures Value(a, Pad) == None
  {
  }

  lemma PadNoDigit(a: Alphabet, v: digit)
    requires Valid(a)
    ensures Digit(a, v) != Pad
  {
  }

  /** A character of encoded text: a digit or the pad. */
  datatype Symbol = D(v: digit) | PadSymbol

  /** The four digits of three bytes; a missing byte counts as zero. */
  function D0(b0: byte): digit { b0 / 4 }
  function D1(b0: byte, b1: byte): digit { (b0 % 4) * 16 + b1 / 16 }
  function D2(b1: byte, b2: byte): digit { (b1 % 16) * 4 + b2 / 64 }
  function D3(b2: byte): digit { b2 % 64 }

  /** The three bytes of four digits. */
  function B0(d0: digit, d1: digit): byte { d0 * 4 + d1 / 16 }
  function B1(d1: digit, d2: digit): byte { (d1 % 16) * 16 + d2 / 4 }
  function B2(d2: digit, d3: digit): byte { (d2 % 4) * 64 + d3 }

  lemma FirstByte(b0: byte, b1: byte)
    ensures B0(D0(b0), D1(b0, b1)) == b0
  {
  }

  lemma SecondByte(b0: byte, b1: byte, b2: byte)
    ensures B1(D1(b0, b1), D2(b1, b2)) == b1
  {
    var h, l, t := b1 / 16, b1 % 16, b2 / 64;
    assert h < 16 && l < 16 && t < 4;
    assert ((b0 % 4) * 16 + h) % 16 == h;
    assert (l * 4 + t) / 4 == l;
  }

  lemma ThirdByte(b1: byte, b2: byte)
    ensures B2(D2(b1, b2), D3(b2)) == b2
  {
  }

  /** Each three bytes become four digits; a final one or two bytes become two or
      three digits followed by two or one pads. */
  function Sextets(bs: seq<byte>): (r: seq<Symbol>)
    ensures |r| % 4 == 0
    ensures |r| == 0 <==> |bs| == 0
    decreases |bs|
  {
    if |bs| == 0 then []
    else if |bs| == 1 then [D(D0(bs[0])), D(D1(bs[0], 0)), PadSymbol, PadSymbol]
    else if |bs| == 2 then [D(D0(bs[0])), D(D1(bs[0], bs[1])), D(D2(bs[1], 0)), PadSymbol]
    else [D(D0(bs[0])), D(D1(bs[0], bs[1])), D(D2(bs[1], bs[2])), D(D3(bs[2]))] + Sextets(bs[3..])
  }

  /** The bytes of one group of four symbols, the text's last when `last`: the pad may
      only end the last group, and bits below the last whole byte are ignored. */
  function GroupBytes(q: seq<Symbol>, last: bool): (r: Option<seq<byte>>)
    requires |q| == 4
    ensures r.Some? ==> 1 <= |r.value| <= 3
    ensures r.Some? && |r.value| < 3 ==> last && q[3].PadSymbol?
  {
    if q[0].PadSymbol? || q[1].PadSymbol? then None
    else if q[2].PadSymbol? then
      if last && q[3].PadSymbol? then Some([B0(q[0].v, q[1].v)]) else None
    else if q[3].PadSymbol? then
      if last then Some([B0(q[0].v, q[1].v), B1(q[1].v, q[2].v)]) else None
    else Some([B0(q[0].v, q[1].v), B1(q[1].v, q[2].v), B2(q[2].v, q[3].v)])
  }

  /** The bytes of a whole text of symbols; `None` unless it is a whole number of
      groups of four with the pad only at the end. */
  function Groups(syms: seq<Symbol>): (r: Option<seq<byte>>)
    ensures r.Some? ==> |syms| % 4 == 0
    decreases |syms|
  {
    if |syms| == 0 then Some([])
    else if |syms| < 4 then None
    else
      var g := GroupBytes(syms[..4], |syms| == 4);
      var rest := Groups(syms[4..]);
      if g.None? || rest.None? then None
      else
        assert |syms| == |syms[4..]| + 4;
        Some(g.value + rest.value)
  }

  /** The character of one symbol. */
  function SymbolChar(a: Alphabet, sym: Symbol): char {
    if sym.PadSymbol? then Pad else Digit(a, sym.v)
  }

  function Render(a: Alphabet, syms: seq<Symbol>): (s: string)
    ensures |s| == |syms|
    ensures forall i :: 0 <= i < |syms| ==> s[i] == SymbolChar(a, syms[i])
  {
    if |syms| == 0 then ""
    else [SymbolChar(a, syms[0])] + Render(a, syms[1..])
  }

  /** The symbol of each character; `None` at the first character that is neither a
      digit of the alphabet nor the pad. */
  function Symbols(a: Alphabet, s: string): (r: Option<seq<Symbol>>)
    requires Valid(a)
    ensures r.Some? ==> |r.value| == |s|
  {
    if |s| == 0 then Some([])
    else
      var head := if s[0] == Pad then Some(PadSymbol) else match Value(a, s[0])
        case None => None
        case Some(v) => Some(D(v));
      match head
      case None => None
      case Some(h) =>
        match Symbols(a, s[1..])
        case None => None
        case Some(t) => Some([h] + t)
  }

  /** `b64encode` with alphabet `a`. */
  function Encode(a: Alphabet, bs: seq<byte>): (s: string)
    ensures |s| % 4 == 0
    ensures |s| == 0 <==> |bs| == 0
  {
    Render(a, Sextets(bs))
  }

  /** Strict `b64decode` with alphabet `a`. */
  function Decode(a: Alphabet, s: string): Option<seq<byte>>
    requires Valid(a)
  {
    match Symbols(a, s)
    case None => None
    case Some(syms) => Groups(syms)
  }

  lemma {:induction false} SymbolsRender(a: Alphabet, syms: seq<Symbol>)
    requires Valid(a)
    ensures Symbols(a, Render(a, syms)) == Some(syms)
    decreases |syms|
  {
    if |syms| > 0 {
      var s := Render(a, syms);
      assert s[1..] == Render(a, syms[1..]);
      SymbolsRender(a, syms[1..]);
      if syms[0].D? {
        ValueDigit(a, syms[0].v);
        PadNoDigit(a, syms[0].v);
      }
      assert [syms[0]] + syms[1..] == syms;
    }
  }

  lemma GroupsCons(q: seq<Symbol>, rest: seq<Symbol>)
    requires |q| == 4 && GroupBytes(q, |rest| == 0).Some? && Groups(rest).Some?
    ensures Groups(q + rest) == Some(GroupBytes(q, |rest| == 0).value + Groups(rest).value)
  {
    assert (q + rest)[..4] == q && (q + rest)[4..] == rest;
  }

  lemma {:induction false} GroupsSextets(bs: seq<byte>)
    ensures Groups(Sextets(bs)) == Some(bs)
    decreases |bs|
  {
    if |bs| == 1 {
      FirstByte(bs[0], 0);
      GroupsCons(Sextets(bs), []);
      assert Sextets(bs) + [] == Sextets(bs) && [bs[0]] + [] == bs;
    } else if |bs| == 2 {
      FirstByte(bs[0], bs[1]);
      SecondByte(bs[0], bs[1], 0);
      GroupsCons(Sextets(bs), []);
      assert Sextets(bs) + [] == Sextets(bs) && [bs[0], bs[1]] + [] == bs;
    } else if |bs| >= 3 {
      var q := [D(D0(bs[0])), D(D1(bs[0], bs[1])), D(D2(bs[1], bs[2])), D(D3(bs[2]))];
      FirstByte(bs[0], bs[1]);
      SecondByte(bs[0], bs[1], bs[2]);
      ThirdByte(bs[1], bs[2]);
      GroupsSextets(bs[3..]);
      GroupsCons(q, Sextets(bs[3..]));
      assert [bs[0], bs[1], bs[2]] + bs[3..] == bs;
    }
  }

  /** Decoding what was encoded gives the bytes back, for any valid alphabet. */
  lemma DecodeEncode(a: Alphabet, bs: seq<byte>)
    requires Valid(a)
    ensures Decode(a, Encode(a, bs)) == Some(bs)
  {
    SymbolsRender(a, Sextets(bs));
    GroupsSextets(bs);
  }

  /** Only a whole number of four-character groups decodes. */
  lemma DecodeLength(a: Alphabet, s: string)
    requires Valid(a) && Decode(a, s).Some?
    ensures |s| % 4 == 0
  {
  }

  /** Whole groups of three bytes are encoded independently of what follows. */
  lemma {:induction false} SextetsAppend(b1: seq<byte>, b2: seq<byte>)
    requires |b1| % 3 == 0
    ensures Sextets(b1 + b2) == Sextets(b1) + Sextets(b2)
    decreases |b1|
  {
    if |b1| > 0 {
      assert (b1 + b2)[3..] == b1[3..] + b2;
      assert (b1 + b2)[..3] == b1[..3];
      SextetsAppend(b1[3..], b2);
    } else {
      assert b1 + b2 == b2;
    }
  }

  lemma {:induction false} RenderAppend(a: Alphabet, s1: seq<Symbol>, s2: seq<Symbol>)
    ensures Render(a, s1 + s2) == Render(a, s1) + Render(a, s2)
    decreases |s1|
  {
    if |s1| > 0 {
      assert (s1 + s2)[1..] == s1[1..] + s2;
      RenderAppend(a, s1[1..], s2);
    } else {
      assert s1 + s2 == s2;
    }
  }

  /** Only digit 63 of the standard alphabet is a `/`. */
  lemma StandardSlash(v: digit)
    ensures Digit(Standard, v) == '/' <==> v == 63
  {
  }

  /** Encoded text is made of the alphabet's digits and the pad, and nothing else. */
  predicate IsEncoded(a: Alphabet, s: string) {
    forall i :: 0 <= i < |s| ==> s[i] == Pad || exists v: digit :: Digit(a, v) == s[i]
  }

  lemma {:induction false} RenderDigits(a: Alphabet, syms: seq<Symbol>)
    ensures IsEncoded(a, Render(a, syms))
    decreases |syms|
  {
    if |syms| > 0 {
      RenderDigits(a, syms[1..]);
      var s := Render(a, syms);
      forall i | 0 <= i < |s| ensures s[i] == Pad || exists v: digit :: Digit(a, v) == s[i] {
        if i > 0 {
          assert s[i] == Render(a, syms[1..])[i - 1];
        } else if syms[0].D? {
          assert Digit(a, syms[0].v) == s[0];
        }
      }
    }
  }

  lemma EncodeDigits(a: Alphabet, bs: seq<byte>)
    ensures IsEncoded(a, Encode(a, bs))
  {
    RenderDigits(a, Sextets(bs));
  }

  /** URL-safe text never holds a `/`, so it can sit between the slashes of a path. */
  lemma UrlSafeNoSlash(bs: seq<byte>)
    ensures '/' !in Encode(UrlSafe, bs)
  {
    EncodeDigits(UrlSafe, bs);
  }
}
