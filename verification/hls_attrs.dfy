/** Attribute values and attribute lists of HLS tags (RFC 8216 section 4.2). */
module HlsAttributes {
  import opened Wrappers
  import opened Text

  /** One attribute value: its text without the surrounding double quotes, and whether
      it was written quoted, so that export writes it back the way it came in. */
  datatype AttrValue = AttrValue(value: string, quoted: bool)

  /** Python's `value[1:-1]`. */
  function Inner(raw: string): string {
    if |raw| < 2 then "" else raw[1..|raw| - 1]
  }

  /** The `AttrValue(raw)` constructor: a leading double quote marks a quoted value. */
  function MakeValue(raw: string): (v: AttrValue)
    ensures v.quoted <==> StartsWith(raw, "\"")
    ensures !v.quoted ==> v.value == raw
    ensures v.quoted && |raw| >= 2 ==> v.value == raw[1..|raw| - 1]
  {
    if StartsWith(raw, "\"") then AttrValue(Inner(raw), true) else AttrValue(raw, false)
  }

  /** `AttrValue.export()`. */
  function Export(v: AttrValue): string {
    if v.quoted then "\"" + v.value + "\"" else v.value
  }

  /** Export gives back the raw text exactly when that text is unquoted or is wrapped in
      a pair of double quotes. */
  lemma ExportMakeValue(raw: string)
    ensures Export(MakeValue(raw)) == raw
        <==> (!StartsWith(raw, "\"") || (|raw| >= 2 && raw[|raw| - 1] == '"'))
  {
    if StartsWith(raw, "\"") {
      if |raw| >= 2 {
        if raw[|raw| - 1] == '"' {
          assert raw == "\"" + raw[1..|raw| - 1] + "\"";
        } else {
          var e := Export(MakeValue(raw));
          assert e[|e| - 1] == '"';
        }
      } else {
        assert Export(MakeValue(raw)) == "\"\"";
      }
    }
  }

  /** Reading an exported value back gives the same value, unless an unquoted value
      itself starts with a double quote. */
  lemma MakeValueExport(v: AttrValue)
    requires v.quoted || !StartsWith(v.value, "\"")
    ensures MakeValue(Export(v)) == v
  {
    if v.quoted {
      var e := Export(v);
      assert e[1..|e| - 1] == v.value;
    }
  }

  /** `AttrValue == text`: the comparison ignores how the value was quoted. */
  predicate ValueEquals(v: AttrValue, text: string) {
    v.value == text
  }

  // ---------------------------------------------------------------------------------
  // Insertion-ordered attribute maps (Python's OrderedDict of AttrValue).

  type AttrList = seq<(string, AttrValue)>

  function Keys(a: AttrList): (ks: seq<string>)
    ensures |ks| == |a|
    ensures forall i :: 0 <= i < |a| ==> ks[i] == a[i].0
  {
    seq(|a|, i requires 0 <= i < |a| => a[i].0)
  }

  predicate HasKey(a: AttrList, k: string) {
    exists i :: 0 <= i < |a| && a[i].0 == k
  }

  predicate DistinctKeys(a: AttrList) {
    forall i, j :: 0 <= i < j < |a| ==> a[i].0 != a[j].0
  }

  /** `a.get(k)`: the value stored under the first (for distinct keys, the only) `k`. */
  function Lookup(a: AttrList, k: string): (r: Option<AttrValue>)
    ensures r.None? <==> !HasKey(a, k)
    ensures r.Some? ==> exists i :: 0 <= i < |a| && a[i] == (k, r.value)
  {
    if |a| == 0 then None
    else if a[0].0 == k then Some(a[0].1)
    else
      var r := Lookup(a[1..], k);
      assert r.Some? ==> exists i :: 0 <= i < |a[1..]| && a[1..][i] == (k, r.value);
      assert HasKey(a[1..], k) ==> HasKey(a, k);
      assert HasKey(a, k) ==> HasKey(a[1..], k) by {
        if HasKey(a, k) {
          var i :| 0 <= i < |a| && a[i].0 == k;
          assert a[1..][i - 1].0 == k;
        }
      }
      r
  }

  /** `str(a[k])` guarded by `get`: the unquoted text under `k`. */
  function Get(a: AttrList, k: string): (r: Option<string>)
    ensures r.None? <==> !HasKey(a, k)
  {
    match Lookup(a, k)
    case None => None
    case Some(v) => Some(v.value)
  }

  /** `a.get(k, default)` rendered with `str`. */
  function GetOr(a: AttrList, k: string, default: string): string {
    Get(a, k).GetOr(default)
  }

  /** Position of the first `k`, or `|a|` when there is none. */
  function KeyIndex(a: AttrList, k: string): (i: nat)
    ensures i <= |a|
    ensures i < |a| ==> a[i].0 == k
    ensures forall j :: 0 <= j < i ==> a[j].0 != k
    ensures i == |a| <==> !HasKey(a, k)
    decreases |a|
  {
    if |a| == 0 then 0 else if a[0].0 == k then 0 else 1 + KeyIndex(a[1..], k)
  }

  /** The lookup finds the first entry under its key. */
  lemma {:induction false} LookupFirst(a: AttrList, k: string, i: nat)
    requires i < |a| && a[i].0 == k
    requires forall j :: 0 <= j < i ==> a[j].0 != k
    ensures Lookup(a, k) == Some(a[i].1)
    decreases i
  {
    if i > 0 {
      assert a[1..][i - 1] == a[i];
      LookupFirst(a[1..], k, i - 1);
    }
  }

  /** `a[k] = v`: an existing key keeps its place and takes the new value; a new key goes
      to the end. */
  function Put(a: AttrList, k: string, v: AttrValue): (r: AttrList)
    ensures HasKey(a, k) ==> |r| == |a| && Keys(r) == Keys(a)
    ensures !HasKey(a, k) ==> r == a + [(k, v)]
    ensures forall i :: 0 <= i < |a| && a[i].0 != k ==> r[i] == a[i]
    ensures DistinctKeys(a) ==> DistinctKeys(r) && Lookup(r, k) == Some(v)
  {
    var i := KeyIndex(a, k);
    if i < |a| then
      var r := a[i := (k, v)];
      assert Keys(r) == Keys(a);
      LookupFirst(r, k, i);
      r
    else
      var r := a + [(k, v)];
      LookupFirst(r, k, |a|);
      r
  }

  /** `del a[k]` when present. */
  function Remove(a: AttrList, k: string): (r: AttrList)
    ensures !HasKey(r, k)
    ensures !HasKey(a, k) ==> r == a
    ensures |r| <= |a|
    decreases |a|
  {
    if |a| == 0 then []
    else
      var t := Remove(a[1..], k);
      if a[0].0 == k then t
      else
        assert !HasKey(a, k) ==> !HasKey(a[1..], k) by {
          if HasKey(a[1..], k) {
            var i :| 0 <= i < |a[1..]| && a[1..][i].0 == k;
            assert a[i + 1].0 == k;
          }
        }
        assert !HasKey([a[0]] + t, k) by {
          forall i | 0 <= i < |[a[0]] + t| ensures ([a[0]] + t)[i].0 != k {
            if i > 0 {
              assert ([a[0]] + t)[i] == t[i - 1];
            }
          }
        }
        [a[0]] + t
  }

  /** Removing a key changes the lookup of no other key, takes nothing new in and
      keeps the keys distinct. */
  lemma {:induction false} RemoveKeeps(a: AttrList, k: string)
    ensures forall k' :: k' != k ==> Lookup(Remove(a, k), k') == Lookup(a, k')
    ensures forall i :: 0 <= i < |Remove(a, k)| ==> Remove(a, k)[i] in a
    ensures DistinctKeys(a) ==> DistinctKeys(Remove(a, k))
    decreases |a|
  {
    if |a| > 0 {
      var t := Remove(a[1..], k);
      RemoveKeeps(a[1..], k);
      if a[0].0 != k {
        var r := [a[0]] + t;
        assert Remove(a, k) == r;
        assert r[0] == a[0] && r[1..] == t;
        forall k' | k' != k ensures Lookup(r, k') == Lookup(a, k') {
          if a[0].0 != k' {
            assert Lookup(r, k') == Lookup(t, k');
            assert Lookup(a, k') == Lookup(a[1..], k');
          }
        }
        forall i | 0 < i < |r| ensures r[i] in a[1..] {
          assert r[i] == t[i - 1];
        }
        if DistinctKeys(a) {
          assert DistinctKeys(a[1..]);
          forall i | 0 < i < |r| ensures r[i].0 != a[0].0 {
            var j :| 0 <= j < |a[1..]| && a[1..][j] == r[i];
            assert a[j + 1] == r[i];
          }
        }
      }
    }
  }

  // ---------------------------------------------------------------------------------
  // Tokenising an attribute list: maximal runs of characters other than white space,
  // comma and double quote, and of complete double-quoted strings.

  predicate IsPlainChar(c: char) {
    !IsSpace(c) && c != ',' && c != '"'
  }

  predicate AllPlain(s: string) {
    forall i :: 0 <= i < |s| ==> IsPlainChar(s[i])
  }

  /** Where a quoted string of the attribute pattern closes, given the text after its
      opening quote: the position of the closing `"`, or `None` when none can be
      reached. The body is a run of `\` followed by any character but a line feed, or
      of any character but `"`. The regular expression engine tries the escape first
      and, when the rest cannot close, reads the `\` as a plain character instead. */
  function CloseQuote(s: string): (q: Option<nat>)
    ensures q.Some? ==> q.value < |s| && s[q.value] == '"'
    decreases |s|
  {
    if |s| == 0 then None
    else if s[0] == '"' then Some(0)
    else
      var escaped := if s[0] == '\\' && |s| > 1 && s[1] != '\n' then CloseQuote(s[2..]) else None;
      if escaped.Some? then Some(escaped.value + 2)
      else
        match CloseQuote(s[1..])
        case Some(q) => Some(q + 1)
        case None => None
  }

  /** Length of the token the pattern matches at the start of `s`: plain characters
      and complete quoted strings, as many as follow one another. */
  function UnitRun(s: string): (n: nat)
    ensures n <= |s|
    decreases |s|
  {
    if |s| == 0 then 0
    else if IsPlainChar(s[0]) then 1 + UnitRun(s[1..])
    else if s[0] == '"' then
      match CloseQuote(s[1..])
      case Some(q) => q + 2 + UnitRun(s[q + 2..])
      case None => 0
    else 0
  }

  /** `re.findall` of the source's attribute pattern: tokens in order of appearance; a
      position where no token starts (separator or unterminated quote) is skipped. */
  function Tokens(s: string): (ts: seq<string>)
    ensures forall i :: 0 <= i < |ts| ==> |ts[i]| > 0
    decreases |s|
  {
    if |s| == 0 then []
    else
      var n := UnitRun(s);
      if n == 0 then Tokens(s[1..]) else [s[..n]] + Tokens(s[n..])
  }

  /** Text with neither a double quote nor a backslash. */
  predicate Unescaped(x: string) {
    !HasChar(x, '"') && !HasChar(x, '\\')
  }

  /** Text free of quotes and backslashes is crossed as it stands. */
  lemma {:induction false} CloseQuoteSkip(x: string, t: string)
    requires Unescaped(x) && CloseQuote(t).Some?
    ensures CloseQuote(x + t) == Some(|x| + CloseQuote(t).value)
    decreases |x|
  {
    if |x| == 0 {
      assert x + t == t;
    } else {
      var s := x + t;
      assert s[0] == x[0] && x[0] != '"' && x[0] != '\\';
      assert s[1..] == x[1..] + t;
      assert Unescaped(x[1..]) by {
        forall i | 0 <= i < |x[1..]| ensures x[1..][i] == x[i + 1] { }
      }
      CloseQuoteSkip(x[1..], t);
    }
  }

  /** An escaped quote does not close the string. */
  lemma CloseQuoteEscape(t: string)
    requires CloseQuote(t).Some?
    ensures CloseQuote("\\\"" + t) == Some(CloseQuote(t).value + 2)
  {
    var s := "\\\"" + t;
    assert s[2..] == t;
  }

  /** A quoted value holding an escaped quote `\"` is read as one token. */
  lemma EscapedQuote(k: string, x: string, y: string, rest: string)
    requires AllPlain(k) && Unescaped(x) && Unescaped(y)
    ensures var tok := k + "=\"" + x + "\\\"" + y + "\"";
      Tokens(tok + "," + rest) == [tok] + Tokens(rest)
  {
    var tail := "," + rest;
    var body := x + "\\\"" + y + "\"" + tail;
    var q := |x| + |y| + 2;
    EscapedBody(x, y, tail);
    QuotedRun(body, q, tail);
    assert AllPlain(k + "=");
    PlainPrefixRun(k + "=", "\"" + body, q + 2);
    var tok := k + "=\"" + x + "\\\"" + y + "\"";
    EscapedShape(k, x, y, tail);
    TokensComma(tok, rest);
  }

  lemma EscapedBody(x: string, y: string, tail: string)
    requires Unescaped(x) && Unescaped(y)
    ensures var body := x + "\\\"" + y + "\"" + tail;
      CloseQuote(body) == Some(|x| + |y| + 2) && body[|x| + |y| + 3..] == tail
  {
    CloseQuoteOf(y, tail);
    CloseQuoteEscape(y + "\"" + tail);
    CloseQuoteSkip(x, "\\\"" + (y + "\"" + tail));
    Assoc4(x, "\\\"", y, "\"", tail);
  }

  lemma Assoc4(a: string, b: string, c: string, d: string, e: string)
    ensures a + (b + (c + d + e)) == a + b + c + d + e
    ensures (a + b + c + d + e)[|a| + |b| + |c| + |d|..] == e
  {
  }

  lemma EscapedShape(k: string, x: string, y: string, tail: string)
    ensures var body := x + "\\\"" + y + "\"" + tail;
      var tok := k + "=\"" + x + "\\\"" + y + "\"";
      var m := |x| + |y| + 4;
      (k + "=") + ("\"" + body) == tok + tail
      && (k + "=") + ("\"" + body)[..m] == tok
      && ("\"" + body)[m..] == tail
  {
  }

  lemma QuotedRun(body: string, q: nat, tail: string)
    requires CloseQuote(body) == Some(q) && body[q + 1..] == tail && |tail| > 0 && tail[0] == ','
    ensures UnitRun("\"" + body) == q + 2
    ensures ("\"" + body)[q + 2..] == tail
  {
    var s := "\"" + body;
    assert s[1..] == body;
    assert s[q + 2..] == tail;
  }

  lemma PlainPrefixRun(k: string, q: string, m: nat)
    requires AllPlain(k) && UnitRun(q) == m
    ensures var s := k + q;
      UnitRun(s) == |k| + m && s[..|k| + m] == k + q[..m] && s[|k| + m..] == q[m..]
  {
    UnitRunPlain(k, q);
  }

  lemma TokensComma(tok: string, rest: string)
    requires |tok| > 0 && UnitRun(tok + ("," + rest)) == |tok|
    requires (tok + ("," + rest))[..|tok|] == tok && (tok + ("," + rest))[|tok|..] == "," + rest
    ensures Tokens(tok + "," + rest) == [tok] + Tokens(rest)
  {
    assert tok + "," + rest == tok + ("," + rest);
    assert ("," + rest)[1..] == rest;
  }

  /** A backslash before the only closing quote is read as a plain character, so the
      quoted string still closes there. */
  lemma BackslashBeforeClose()
    ensures Tokens("A=\"a\\\"") == ["A=\"a\\\""]
  {
    var t3 := "\\\"";
    assert t3[2..] == "" && t3[1..] == "\"";
    assert CloseQuote(t3) == Some(1);
    var t2 := "a" + t3;
    assert t2[1..] == t3;
    assert CloseQuote(t2) == Some(2);
    var q := "\"" + t2;
    assert q[1..] == t2 && q[4..] == "";
    assert UnitRun(q) == 4;
    var s := "A=" + q;
    assert AllPlain("A=");
    UnitRunPlain("A=", q);
    assert s == "A=\"a\\\"" && s[..6] == s && s[6..] == "";
  }

  /** The key of a token: the text before the first `=`. */
  function TokenKey(tok: string): string {
    Split(tok, '=')[0]
  }

  /** The value of a token: the split pieces after the first, joined back with `=`. */
  function TokenValue(tok: string): string {
    Join(Split(tok, '=')[1..], "=")
  }

  lemma {:induction false} JoinSplit(s: string, c: char)
    ensures Join(Split(s, c), [c]) == s
    decreases |s|
  {
    var i := FindChar(s, c);
    if i < |s| {
      var rest := Split(s[i + 1..], c);
      JoinSplit(s[i + 1..], c);
      JoinCons(s[..i], rest, [c]);
      assert s == s[..i] + [c] + s[i + 1..];
    }
  }

  /** The key is everything before the first `=`, and the value everything after it,
      further `=` signs included; with no `=` the value is empty. */
  lemma TokenSplit(tok: string)
    ensures var i := FindChar(tok, '=');
      TokenKey(tok) == tok[..i]
      && TokenValue(tok) == (if i < |tok| then tok[i + 1..] else "")
  {
    var i := FindChar(tok, '=');
    if i < |tok| {
      assert Split(tok, '=')[1..] == Split(tok[i + 1..], '=');
      JoinSplit(tok[i + 1..], '=');
    }
  }

  function FoldPut(acc: AttrList, toks: seq<string>): AttrList
    decreases |toks|
  {
    if |toks| == 0 then acc
    else FoldPut(Put(acc, TokenKey(toks[0]), MakeValue(TokenValue(toks[0]))), toks[1..])
  }

  /** `HlsPlaylist.parse_attributes`. */
  function ParseAttributes(line: string): (a: AttrList)
    ensures DistinctKeys(a)
  {
    FoldPutDistinct([], Tokens(line));
    FoldPut([], Tokens(line))
  }

  lemma {:induction false} FoldPutDistinct(acc: AttrList, toks: seq<string>)
    requires DistinctKeys(acc)
    ensures DistinctKeys(FoldPut(acc, toks))
    decreases |toks|
  {
    if |toks| > 0 {
      FoldPutDistinct(Put(acc, TokenKey(toks[0]), MakeValue(TokenValue(toks[0]))), toks[1..]);
    }
  }

  /** The value the last of `toks` under `key` carries, the one a run of assignments
      `attr[key] = value` leaves behind; `None` when no token has that key. */
  function LastValue(toks: seq<string>, key: string): Option<AttrValue>
    decreases |toks|
  {
    if |toks| == 0 then None
    else match LastValue(toks[1..], key)
      case Some(v) => Some(v)
      case None => if TokenKey(toks[0]) == key then Some(MakeValue(TokenValue(toks[0]))) else None
  }

  /** Assigning `k` changes the lookup of `k` only. */
  lemma LookupPut(a: AttrList, k: string, v: AttrValue, key: string)
    requires DistinctKeys(a)
    ensures Lookup(Put(a, k, v), key) == if key == k then Some(v) else Lookup(a, key)
  {
    var r := Put(a, k, v);
    if key != k {
      assert forall i :: 0 <= i < |a| ==> r[i].0 == a[i].0 by {
        if HasKey(a, k) { assert Keys(r) == Keys(a); }
      }
      var j := KeyIndex(a, key);
      if j < |a| {
        assert r[j] == a[j];
        LookupFirst(r, key, j);
        LookupFirst(a, key, j);
      } else {
        assert !HasKey(r, key);
      }
    }
  }

  lemma {:induction false} FoldPutLookup(acc: AttrList, toks: seq<string>, key: string)
    requires DistinctKeys(acc)
    ensures Lookup(FoldPut(acc, toks), key)
      == if LastValue(toks, key).Some? then LastValue(toks, key) else Lookup(acc, key)
    decreases |toks|
  {
    if |toks| > 0 {
      var k, v := TokenKey(toks[0]), MakeValue(TokenValue(toks[0]));
      FoldPutLookup(Put(acc, k, v), toks[1..], key);
      LookupPut(acc, k, v, key);
    }
  }

  /** Each key of the parsed line holds the value of its last token; a key no token
      carries is absent. */
  lemma ParseAttributesLookup(line: string, key: string)
    ensures Lookup(ParseAttributes(line), key) == LastValue(Tokens(line), key)
  {
    FoldPutLookup([], Tokens(line), key);
  }

  // ---------------------------------------------------------------------------------
  // Rendering, as the serialisers write it: `k=v` pairs joined by commas.

  function Pair(k: string, v: AttrValue): string {
    k + "=" + Export(v)
  }

  function Pairs(a: AttrList): (ps: seq<string>)
    ensures |ps| == |a|
    ensures forall i :: 0 <= i < |a| ==> ps[i] == Pair(a[i].0, a[i].1)
  {
    seq(|a|, i requires 0 <= i < |a| => Pair(a[i].0, a[i].1))
  }

  /** `','.join('%s=%s' % (k, v.export()) for k, v in a.items())`. */
  function Render(a: AttrList): string {
    Join(Pairs(a), ",")
  }

  /** A key the tokenizer reads back whole: plain characters and no `=`. */
  predicate GoodKey(k: string) {
    AllPlain(k) && !HasChar(k, '=')
  }

  /** A value the tokenizer reads back whole: quoted without inner quotes or
      backslashes, or plain. */
  predicate GoodValue(v: AttrValue) {
    if v.quoted then Unescaped(v.value) else AllPlain(v.value)
  }

  predicate Canonical(a: AttrList) {
    DistinctKeys(a) && forall i :: 0 <= i < |a| ==> GoodKey(a[i].0) && GoodValue(a[i].1)
  }

  lemma {:induction false} UnitRunPlain(p: string, r: string)
    requires AllPlain(p)
    ensures UnitRun(p + r) == |p| + UnitRun(r)
    decreases |p|
  {
    if |p| > 0 {
      assert (p + r)[0] == p[0];
      assert (p + r)[1..] == p[1..] + r;
      UnitRunPlain(p[1..], r);
    } else {
      assert p + r == r;
    }
  }

  /** A quoted text free of quotes and backslashes closes at its own quote. */
  lemma CloseQuoteOf(x: string, r: string)
    requires Unescaped(x)
    ensures CloseQuote(x + "\"" + r) == Some(|x|)
  {
    CloseQuoteSkip(x, "\"" + r);
    assert x + ("\"" + r) == x + "\"" + r;
  }

  lemma UnitRunQuoted(x: string, r: string)
    requires Unescaped(x)
    ensures UnitRun("\"" + x + "\"" + r) == |x| + 2 + UnitRun(r)
  {
    var s := "\"" + x + "\"" + r;
    assert s[1..] == x + "\"" + r;
    CloseQuoteOf(x, r);
    assert s[|x| + 2..] == r;
  }

  lemma UnitRunPair(k: string, v: AttrValue, r: string)
    requires GoodKey(k) && GoodValue(v)
    ensures UnitRun(Pair(k, v) + r) == |Pair(k, v)| + UnitRun(r)
  {
    assert AllPlain(k + "=");
    if v.quoted {
      assert Pair(k, v) + r == (k + "=") + ("\"" + v.value + "\"" + r);
      UnitRunPlain(k + "=", "\"" + v.value + "\"" + r);
      UnitRunQuoted(v.value, r);
    } else {
      assert AllPlain(k + "=" + v.value);
      assert Pair(k, v) + r == (k + "=" + v.value) + r;
      UnitRunPlain(k + "=" + v.value, r);
    }
  }

  lemma TokensAfterPair(k: string, v: AttrValue, r: string)
    requires GoodKey(k) && GoodValue(v)
    requires |r| == 0 || r[0] == ','
    ensures Tokens(Pair(k, v) + r) == [Pair(k, v)] + Tokens(if |r| == 0 then "" else r[1..])
  {
    var p := Pair(k, v);
    UnitRunPair(k, v, r);
    assert UnitRun(r) == 0;
    assert |p| > 0 by { assert p == k + "=" + Export(v); }
    assert (p + r)[..|p|] == p;
    assert (p + r)[|p|..] == r;
    if |r| > 0 {
      assert UnitRun(r) == 0;
    }
  }

  lemma {:induction false} TokensOfRender(a: AttrList)
    requires forall i :: 0 <= i < |a| ==> GoodKey(a[i].0) && GoodValue(a[i].1)
    ensures Tokens(Render(a)) == Pairs(a)
    decreases |a|
  {
    if |a| == 1 {
      TokensAfterPair(a[0].0, a[0].1, "");
      assert Pair(a[0].0, a[0].1) + "" == Pair(a[0].0, a[0].1);
    } else if |a| > 1 {
      var rest := Render(a[1..]);
      assert Pairs(a)[1..] == Pairs(a[1..]);
      assert Render(a) == Pair(a[0].0, a[0].1) + ("," + rest);
      TokensAfterPair(a[0].0, a[0].1, "," + rest);
      assert ("," + rest)[1..] == rest;
      TokensOfRender(a[1..]);
      assert [Pair(a[0].0, a[0].1)] + Pairs(a[1..]) == Pairs(a);
    }
  }

  lemma PairSplits(k: string, v: AttrValue)
    requires GoodKey(k) && GoodValue(v)
    ensures TokenKey(Pair(k, v)) == k
    ensures MakeValue(TokenValue(Pair(k, v))) == v
  {
    var p := Pair(k, v);
    FindCharAppend(k, "=" + Export(v), '=');
    assert p == k + ("=" + Export(v));
    TokenSplit(p);
    assert p[..|k|] == k;
    assert p[|k| + 1..] == Export(v);
    if !v.quoted && |v.value| > 0 {
      assert IsPlainChar(v.value[0]);
    }
    MakeValueExport(v);
  }

  lemma {:induction false} FoldPutPairs(acc: AttrList, a: AttrList)
    requires Canonical(acc + a)
    ensures FoldPut(acc, Pairs(a)) == acc + a
    decreases |a|
  {
    if |a| == 0 {
      assert acc + a == acc;
    } else {
      assert (acc + a)[|acc|] == a[0];
      PairSplits(a[0].0, a[0].1);
      assert !HasKey(acc, a[0].0) by {
        forall i | 0 <= i < |acc| ensures acc[i].0 != a[0].0 {
          assert (acc + a)[i] == acc[i];
        }
      }
      var acc' := acc + [a[0]];
      assert acc' + a[1..] == acc + a;
      assert Put(acc, a[0].0, a[0].1) == acc';
      assert Pairs(a)[1..] == Pairs(a[1..]);
      assert acc' + a[1..] == acc + a;
      FoldPutPairs(acc', a[1..]);
    }
  }

  /** Parsing a rendered canonical attribute list gives the list back: same keys, same
      values, same quoting, same order. */
  lemma ParseRender(a: AttrList)
    requires Canonical(a)
    ensures ParseAttributes(Render(a)) == a
  {
    TokensOfRender(a);
    assert [] + a == a;
    FoldPutPairs([], a);
    calc {
      ParseAttributes(Render(a));
      FoldPut([], Tokens(Render(a)));
      FoldPut([], Pairs(a));
    }
  }
}
