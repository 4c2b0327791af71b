/** The attribute reader of the YouTube HLS extractor: every non-overlapping
    match of `KEY=value` followed by a comma or the end of the line, found left
    to right, where KEY is a run of upper-case letters, digits and '-' and the
    value is either a quoted string of at least one character or a run of
    characters without '"' and ','. Quoted values lose their quotes; a later
    key overwrites an earlier one. */
module YtM3u8 {
  import opened Wrappers
  import opened Text

  predicate KeyChar(c: char) {
    'A' <= c <= 'Z' || '0' <= c <= '9' || c == '-'
  }

  predicate PlainChar(c: char) {
    c != '"' && c != ','
  }

  /** Length of the longest prefix of key characters. */
  function KeyRun(s: string): (n: nat)
    ensures n <= |s|
    ensures forall i :: 0 <= i < n ==> KeyChar(s[i])
    ensures n < |s| ==> !KeyChar(s[n])
    decreases |s|
  {
    if |s| > 0 && KeyChar(s[0]) then 1 + KeyRun(s[1..]) else 0
  }

  /** Length of the longest prefix of characters that may stand in an unquoted value. */
  function PlainRun(s: string): (n: nat)
    ensures n <= |s|
    ensures forall i :: 0 <= i < n ==> PlainChar(s[i])
    ensures n < |s| ==> !PlainChar(s[n])
    decreases |s|
  {
    if |s| > 0 && PlainChar(s[0]) then 1 + PlainRun(s[1..]) else 0
  }

  /** One match: the key, the value as matched, and the text after it. */
  datatype Match = Match(key: string, val: string, rest: string)

  /** The match after the value: a comma is consumed, the end of the line is accepted. */
  function Close(key: string, val: string, after: string): (r: Option<Match>)
    ensures r.Some? ==> r.value.key == key && r.value.val == val && |r.value.rest| <= |after|
  {
    if |after| == 0 then Some(Match(key, val, ""))
    else if after[0] == ',' then Some(Match(key, val, after[1..]))
    else None
  }

  /** The value part of a match whose key and '=' have been read. */
  function MatchValue(key: string, v: string): (r: Option<Match>)
    ensures r.Some? ==> r.value.key == key && |r.value.rest| < |v|
  {
    if |v| > 0 && v[0] == '"' then
      var q := FindChar(v[1..], '"');
      if q == 0 || q == |v| - 1 then None
      else Close(key, v[..q + 2], v[q + 2..])
    else
      var n := PlainRun(v);
      if n == 0 then None else Close(key, v[..n], v[n..])
  }

  /** The match starting at the first character of `s`, if there is one. Neither
      the key nor the value can be shortened to make a failed match succeed, so
      the longest runs decide. */
  function MatchAt(s: string): (r: Option<Match>)
    ensures r.Some? ==> |r.value.rest| < |s|
  {
    var k := KeyRun(s);
    if k == 0 || k == |s| || s[k] != '=' then None
    else MatchValue(s[..k], s[k + 1..])
  }

  /** `val[1:-1] if val.startswith('"') else val`. */
  function Unquote(val: string): string {
    if |val| >= 2 && val[0] == '"' then val[1..|val| - 1] else val
  }

  /** `findall` from the start of `s`, each match stored into `acc`. */
  function Scan(s: string, acc: map<string, string>): map<string, string>
    decreases |s|
  {
    if |s| == 0 then acc
    else match MatchAt(s)
      case Some(m) => Scan(m.rest, acc[m.key := Unquote(m.val)])
      case None => Scan(s[1..], acc)
  }

  /** `_parse_m3u8_attributes(line)`. */
  function Attributes(line: string): map<string, string> {
    Scan(line, map[])
  }

  /** One attribute as a playlist writes it. */
  datatype Attribute = Attribute(key: string, value: string, quoted: bool)

  predicate ValidAttribute(a: Attribute) {
    && |a.key| > 0 && (forall i :: 0 <= i < |a.key| ==> KeyChar(a.key[i]))
    && |a.value| > 0 && !HasChar(a.value, '"')
    && (!a.quoted ==> !HasChar(a.value, ','))
  }

  function Render(a: Attribute): string {
    a.key + "=" + (if a.quoted then "\"" + a.value + "\"" else a.value)
  }

  /** The attributes joined by commas. */
  function RenderAll(attrs: seq<Attribute>): string
    decreases |attrs|
  {
    if |attrs| == 0 then ""
    else if |attrs| == 1 then Render(attrs[0])
    else Render(attrs[0]) + "," + RenderAll(attrs[1..])
  }

  /** The attributes stored in order, a later key winning. */
  function Store(acc: map<string, string>, attrs: seq<Attribute>): map<string, string>
    decreases |attrs|
  {
    if |attrs| == 0 then acc else Store(acc[attrs[0].key := attrs[0].value], attrs[1..])
  }

  lemma {:induction false} KeyRunAppend(a: string, b: string)
    requires forall i :: 0 <= i < |a| ==> KeyChar(a[i])
    ensures KeyRun(a + b) == |a| + KeyRun(b)
    decreases |a|
  {
    if |a| == 0 {
      assert a + b == b;
    } else {
      assert (a + b)[0] == a[0] && (a + b)[1..] == a[1..] + b;
      KeyRunAppend(a[1..], b);
    }
  }

  lemma {:induction false} PlainRunAppend(a: string, b: string)
    requires forall i :: 0 <= i < |a| ==> PlainChar(a[i])
    ensures PlainRun(a + b) == |a| + PlainRun(b)
    decreases |a|
  {
    if |a| == 0 {
      assert a + b == b;
    } else {
      assert (a + b)[0] == a[0] && (a + b)[1..] == a[1..] + b;
      PlainRunAppend(a[1..], b);
    }
  }

  /** The value as a well-formed attribute writes it. */
  function Written(a: Attribute): string {
    if a.quoted then "\"" + a.value + "\"" else a.value
  }

  /** The text a match leaves behind when `after` is empty or starts with a comma. */
  function Behind(after: string): string {
    if |after| == 0 then "" else after[1..]
  }

  lemma MatchKey(key: string, v: string)
    requires |key| > 0 && forall i :: 0 <= i < |key| ==> KeyChar(key[i])
    ensures MatchAt(key + "=" + v) == MatchValue(key, v)
  {
    var s := key + "=" + v;
    assert s == key + ("=" + v);
    KeyRunAppend(key, "=" + v);
    assert s[..|key|] == key;
    assert s[|key| + 1..] == v;
  }

  lemma MatchQuoted(key: string, value: string, after: string)
    requires |value| > 0 && !HasChar(value, '"')
    requires |after| == 0 || after[0] == ','
    ensures MatchValue(key, "\"" + value + "\"" + after) == Some(Match(key, "\"" + value + "\"", Behind(after)))
  {
    var v := "\"" + value + "\"" + after;
    assert v[1..] == value + ("\"" + after);
    FindCharAppend(value, "\"" + after, '"');
    assert v[..|value| + 2] == "\"" + value + "\"";
    assert v[|value| + 2..] == after;
  }

  lemma MatchPlain(key: string, value: string, after: string)
    requires |value| > 0 && !HasChar(value, '"') && !HasChar(value, ',')
    requires |after| == 0 || after[0] == ','
    ensures MatchValue(key, value + after) == Some(Match(key, value, Behind(after)))
  {
    var v := value + after;
    assert forall i :: 0 <= i < |value| ==> PlainChar(value[i]);
    PlainRunAppend(value, after);
    assert v[..|value|] == value;
    assert v[|value|..] == after;
  }

  /** A well-formed attribute followed by a comma or by nothing is one match. */
  lemma MatchRendered(a: Attribute, after: string)
    requires ValidAttribute(a)
    requires |after| == 0 || after[0] == ','
    ensures MatchAt(Render(a) + after) == Some(Match(a.key, Written(a), Behind(after)))
  {
    assert Render(a) + after == a.key + "=" + (Written(a) + after);
    MatchKey(a.key, Written(a) + after);
    if a.quoted {
      assert Written(a) + after == "\"" + a.value + "\"" + after;
      MatchQuoted(a.key, a.value, after);
    } else {
      MatchPlain(a.key, a.value, after);
    }
  }

  lemma ScanMatch(s: string, acc: map<string, string>, m: Match)
    requires MatchAt(s) == Some(m)
    ensures Scan(s, acc) == Scan(m.rest, acc[m.key := Unquote(m.val)])
  {
  }

  /** The first attribute a playlist wrote is the first match of the scan. */
  lemma ScanFirst(attrs: seq<Attribute>, acc: map<string, string>)
    requires |attrs| > 0 && ValidAttribute(attrs[0])
    ensures Scan(RenderAll(attrs), acc) ==
      Scan(RenderAll(attrs[1..]), acc[attrs[0].key := attrs[0].value])
  {
    var a := attrs[0];
    var s := RenderAll(attrs);
    assert Unquote(Written(a)) == a.value;
    if |attrs| == 1 {
      MatchRendered(a, "");
      assert Render(a) + "" == s;
      ScanMatch(s, acc, Match(a.key, Written(a), ""));
    } else {
      var rest := RenderAll(attrs[1..]);
      MatchRendered(a, "," + rest);
      assert Render(a) + ("," + rest) == s;
      assert Behind("," + rest) == rest;
      ScanMatch(s, acc, Match(a.key, Written(a), rest));
    }
  }

  /** Reading back what a playlist wrote gives every attribute, quotes removed. */
  lemma {:induction false} ScanRendered(attrs: seq<Attribute>, acc: map<string, string>)
    requires forall i :: 0 <= i < |attrs| ==> ValidAttribute(attrs[i])
    ensures Scan(RenderAll(attrs), acc) == Store(acc, attrs)
    decreases |attrs|
  {
    if |attrs| > 0 {
      ScanFirst(attrs, acc);
      ScanRendered(attrs[1..], acc[attrs[0].key := attrs[0].value]);
    }
  }

  /** Text without '=' that does not end in a key character yields no match and
      does not disturb what follows it, as with a tag such as `#EXT-X-MEDIA:`. */
  lemma {:induction false} ScanSkip(prefix: string, s: string, acc: map<string, string>)
    requires !HasChar(prefix, '=')
    requires |prefix| > 0 ==> !KeyChar(prefix[|prefix| - 1])
    ensures Scan(prefix + s, acc) == Scan(s, acc)
    decreases |prefix|
  {
    if |prefix| == 0 {
      assert prefix + s == s;
    } else {
      var t := prefix + s;
      var k := KeyRun(t);
      assert t[|prefix| - 1] == prefix[|prefix| - 1];
      assert k < |prefix|;
      assert t[k] == prefix[k];
      assert MatchAt(t) == None;
      assert t[1..] == prefix[1..] + s;
      assert !HasChar(prefix[1..], '=') by {
        forall j | 0 <= j < |prefix[1..]| ensures prefix[1..][j] != '=' {
          assert prefix[1..][j] == prefix[j + 1];
        }
      }
      ScanSkip(prefix[1..], s, acc);
    }
  }

  /** An `#EXT-X-MEDIA:` line written from well-formed attributes reads back as them. */
  lemma MediaLine(attrs: seq<Attribute>)
    requires forall i :: 0 <= i < |attrs| ==> ValidAttribute(attrs[i])
    ensures Attributes("#EXT-X-MEDIA:" + RenderAll(attrs)) == Store(map[], attrs)
  {
    var tag := "#EXT-X-MEDIA:";
    assert !HasChar(tag, '=') by {
      forall j | 0 <= j < |tag| ensures tag[j] != '=' { }
    }
    ScanSkip(tag, RenderAll(attrs), map[]);
    ScanRendered(attrs, map[]);
  }
}
