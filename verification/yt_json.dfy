/** The decoded player response as a JSON value, with the Python operations the
    format extractor applies to it: truthiness, `dict.get`, `str()` and the
    `try_get` walk down a chain of keys. Python's `None` is `JNull`. */
module YtJson {
  import opened Text

  datatype Json =
    | JNull
    | JBool(b: bool)
    | JNum(n: int)
    | JStr(s: string)
    | JList(items: seq<Json>)
    | JObj(fields: map<string, Json>)

  /** Python's `bool(v)`. */
  predicate Truthy(v: Json) {
    match v
    case JNull => false
    case JBool(b) => b
    case JNum(n) => n != 0
    case JStr(s) => |s| > 0
    case JList(items) => |items| > 0
    case JObj(fields) => |fields| > 0
  }

  /** `d.get(key, default)`. */
  function Get(d: map<string, Json>, key: string, default: Json): (r: Json)
    ensures key in d ==> r == d[key]
    ensures key !in d ==> r == default
  {
    if key in d then d[key] else default
  }

  /** `str(v)`. Lists and objects, whose text is never a format number, are
      written as a fixed placeholder. */
  function Str(v: Json): (r: string)
    ensures v.JStr? ==> r == v.s
    ensures v.JNum? && v.n >= 0 ==> AllDigits(r) && DigitsValue(r) == v.n
  {
    match v
    case JNull => "None"
    case JBool(b) => if b then "True" else "False"
    case JNum(n) => IntToString(n)
    case JStr(s) => s
    case JList(_) => "[...]"
    case JObj(_) => "{...}"
  }

  /** `try_get(src, path)`: each step is `src.get(key)`; a step on anything but
      an object raises `AttributeError`, which turns the whole walk into `None`. */
  function TryGet(src: Json, path: seq<string>): Json
    decreases |path|
  {
    if |path| == 0 then src
    else match src
      case JObj(fields) => TryGet(Get(fields, path[0], JNull), path[1..])
      case _ => JNull
  }

  /** A walk from `None` stays `None`. */
  lemma TryGetNull(path: seq<string>)
    ensures TryGet(JNull, path) == JNull
  {
  }

  /** Walking a longer path is walking its two halves in turn. */
  lemma {:induction false} TryGetAppend(src: Json, p: seq<string>, q: seq<string>)
    ensures TryGet(src, p + q) == TryGet(TryGet(src, p), q)
    decreases |p|
  {
    if |p| == 0 {
      assert p + q == q;
    } else if src.JObj? {
      assert (p + q)[0] == p[0] && (p + q)[1..] == p[1..] + q;
      TryGetAppend(Get(src.fields, p[0], JNull), p[1..], q);
    } else {
      TryGetNull(q);
    }
  }

  /** The walk gives `None` as soon as one step meets a non-object or a missing key. */
  lemma TryGetBroken(src: Json, path: seq<string>, i: nat)
    requires i < |path|
    requires var at := TryGet(src, path[..i]); !at.JObj? || path[i] !in at.fields
    ensures TryGet(src, path) == JNull
  {
    assert path == path[..i] + path[i..];
    TryGetAppend(src, path[..i], path[i..]);
    var at := TryGet(src, path[..i]);
    if at.JObj? {
      assert Get(at.fields, path[i], JNull) == JNull;
      TryGetNull(path[i + 1..]);
      assert path[i..][1..] == path[i + 1..];
    }
  }

  /** Conversely, a result other than `None` means every step met an object
      holding the next key. */
  lemma TryGetWhole(src: Json, path: seq<string>)
    requires TryGet(src, path) != JNull
    ensures forall i :: 0 <= i < |path| ==> TryGet(src, path[..i]).JObj? && path[i] in TryGet(src, path[..i]).fields
  {
    forall i | 0 <= i < |path|
      ensures TryGet(src, path[..i]).JObj? && path[i] in TryGet(src, path[..i]).fields
    {
      if !(TryGet(src, path[..i]).JObj? && path[i] in TryGet(src, path[..i]).fields) {
        TryGetBroken(src, path, i);
        assert false;
      }
    }
  }
}
