/** The stream key of a DASH playlist address: `stream_key_to_dash_url` turns a key
    (nothing, a string, or a JSON-able structure) into `<endpoint>/dash/<base64>.mpd`,
    and `decode_stream_key` turns the path back into the key. JSON is a pair of opaque
    functions `dumps` and `loads`, `loads` answering `None` where `json.loads` raises. */
module DashStreamKey {
  import opened Wrappers
  import opened Text
  import Utf8
  import Base64

  /** A stream key: `None`, a `str`, or a dict/list/tuple (a JSON value of type `J`). */
  datatype StreamKey<J> = NoKey | Plain(text: string) | Structured(value: J)

  /** Why `decode_stream_key` raises. */
  datatype KeyError = BadBase64 | BadUtf8 | EmptyText | BadJson

  const DashDir := "/dash/"
  const MpdSuffix := ".mpd"

  /** A text whose first character is `{` and whose last is `}`. */
  predicate Braced(s: string) {
    |s| > 0 && s[0] == '{' && s[|s| - 1] == '}'
  }

  /** The text that is base64-encoded: empty for no key, a structure wrapped in braces. */
  function KeyText<J>(dumps: J -> string, key: StreamKey<J>): (t: string)
    ensures key.Structured? ==> Braced(t) && t[1..|t| - 1] == dumps(key.value)
    ensures key.NoKey? ==> t == ""
  {
    match key
    case NoKey => ""
    case Plain(s) => s
    case Structured(v) => "{" + dumps(v) + "}"
  }

  /** The last component of the playlist address. */
  function DashPath<J>(dumps: J -> string, key: StreamKey<J>): (p: string)
    ensures EndsWith(p, MpdSuffix)
  {
    Base64.Encode(Base64.Standard, Utf8.Encode(KeyText(dumps, key))) + MpdSuffix
  }

  /** `stream_key_to_dash_url`. */
  function ToDashUrl<J>(dumps: J -> string, endpoint: string, key: StreamKey<J>): (url: string)
    ensures StartsWith(url, endpoint + DashDir) && url[|endpoint + DashDir|..] == DashPath(dumps, key)
  {
    endpoint + DashDir + DashPath(dumps, key)
  }

  /** `decode_stream_key`: drop one `.mpd` suffix; an empty rest is no key; otherwise
      base64 and then UTF-8 decoding, and a braced text is handed to `loads` without
      its braces. */
  function DecodeStreamKey<J>(loads: string -> Option<J>, path: string): (r: Result<StreamKey<J>, KeyError>)
    ensures r.Ok? && r.value.Plain? ==> |r.value.text| > 0 && !Braced(r.value.text)
  {
    var p := if EndsWith(path, MpdSuffix) then path[..|path| - |MpdSuffix|] else path;
    if |p| == 0 then Ok(NoKey)
    else
      match Base64.Decode(Base64.Standard, p)
      case None => Err(BadBase64)
      case Some(bytes) =>
        match Utf8.Decode(bytes)
        case None => Err(BadUtf8)
        case Some(s) =>
          if |s| == 0 then Err(EmptyText)
          else if s[0] == '{' && s[|s| - 1] == '}' then
            match loads(s[1..|s| - 1])
            case None => Err(BadJson)
            case Some(v) => Ok(Structured(v))
          else Ok(Plain(s))
  }

  lemma EncodeEmpty(t: string)
    ensures Base64.Encode(Base64.Standard, Utf8.Encode(t)) == "" <==> t == ""
  {
  }

  /** What the path of a key's address decodes to: the key text goes through base64 and
      UTF-8 unchanged and is then read as a key. */
  lemma DecodeDashPathText<J>(dumps: J -> string, loads: string -> Option<J>, key: StreamKey<J>)
    ensures var t := KeyText(dumps, key);
      var r := DecodeStreamKey(loads, DashPath(dumps, key));
      && (t == "" ==> r == Ok(NoKey))
      && (t != "" && !Braced(t) ==> r == Ok(Plain(t)))
      && (Braced(t) ==> r == match loads(t[1..|t| - 1]) case None => Err(BadJson) case Some(v) => Ok(Structured(v)))
  {
    var t := KeyText(dumps, key);
    var e := Base64.Encode(Base64.Standard, Utf8.Encode(t));
    var path := DashPath(dumps, key);
    assert path[..|path| - |MpdSuffix|] == e;
    EncodeEmpty(t);
    Base64.AlphabetsValid();
    Base64.DecodeEncode(Base64.Standard, Utf8.Encode(t));
    Utf8.DecodeEncode(t);
  }

  /** No key, and the empty string, come back as no key. */
  lemma NoKeyRoundTrip<J>(dumps: J -> string, loads: string -> Option<J>)
    ensures DecodeStreamKey(loads, DashPath(dumps, NoKey)) == Ok(NoKey)
    ensures DecodeStreamKey(loads, DashPath(dumps, Plain(""))) == Ok(NoKey)
  {
    DecodeDashPathText(dumps, loads, NoKey);
    DecodeDashPathText(dumps, loads, Plain(""));
  }

  /** A non-empty string that is not of the form `{...}` comes back unchanged. */
  lemma PlainRoundTrip<J>(dumps: J -> string, loads: string -> Option<J>, s: string)
    requires s != "" && !Braced(s)
    ensures DecodeStreamKey(loads, DashPath(dumps, Plain(s))) == Ok(Plain(s))
  {
    DecodeDashPathText(dumps, loads, Plain(s));
  }

  /** A structure comes back as itself whenever `loads` inverts `dumps` on it. */
  lemma StructuredRoundTrip<J>(dumps: J -> string, loads: string -> Option<J>, v: J)
    requires loads(dumps(v)) == Some(v)
    ensures DecodeStreamKey(loads, DashPath(dumps, Structured(v))) == Ok(Structured(v))
  {
    DecodeDashPathText(dumps, loads, Structured(v));
  }

  /** A string that happens to be of the form `{...}` is read back as JSON instead. */
  lemma BracedPlainIsJson<J>(dumps: J -> string, loads: string -> Option<J>, s: string)
    requires Braced(s)
    ensures DecodeStreamKey(loads, DashPath(dumps, Plain(s))).Ok? ==>
      DecodeStreamKey(loads, DashPath(dumps, Plain(s))).value.Structured?
  {
    DecodeDashPathText(dumps, loads, Plain(s));
  }
}
