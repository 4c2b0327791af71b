/** How segment requests reach the proxy and leave it again: `dash_proxify_base_url`
    turns a BaseURL into a path under the handler, `P_ds` and `P_dsp` turn the request
    path back into the original segment address, and `../` in segment templates travels
    as `dot-dot-slash` so that the player cannot resolve it away. The response address
    and the bandwidth ceiling of `p_continue` are here too. `md5(...).hexdigest()` and
    `urljoin` are opaque functions. */
module DashRouting {
  import opened Wrappers
  import opened Text
  import Utf8
  import Base64
  import DashCache

  /** What the cache keeps for a DRM-protected base address (`url`, `pssh`, `drm`,
      `init`); `init` maps a segment-template number to its init segment. */
  datatype DrmRoute<R> = DrmRoute(url: string, pssh: seq<string>, drm: R, init: map<string, seq<Utf8.byte>>)

  datatype RouteError = BadBase64 | BadUtf8 | MissingRoute | MissingSegmentType

  const DsDir := "/ds/"
  const DspDir := "/dsp/"

  /** The path component that carries a clear base address. */
  function ProxyKey(alphabet: Base64.Alphabet, url: string): string {
    Base64.Encode(alphabet, Utf8.Encode(url))
  }

  /** `dash_proxify_base_url` for handler `name` at time `now`: with pssh data the route
      is cached under the digest of the address, otherwise the address itself travels
      base64-encoded. */
  function Proxify<R>(alphabet: Base64.Alphabet, md5: string -> string, name: string,
                      cache: DashCache.Cache<DrmRoute<R>>, url: string, pssh: seq<string>,
                      drm: R, now: int): (r: (string, DashCache.Cache<DrmRoute<R>>))
    ensures |pssh| == 0 ==> r.0 == "/" + name + DsDir + ProxyKey(alphabet, url) + "/" && r.1 == cache
    ensures |pssh| > 0 ==> && r.0 == "/" + name + DspDir + md5(url) + "/"
                           && md5(url) in r.1
                           && r.1[md5(url)] == DashCache.Entry(now, DrmRoute(url, pssh, drm, map[]))
    ensures DashCache.KeepsLive(cache, r.1, now)
  {
    if |pssh| > 0 then
      var key := md5(url);
      var route := DrmRoute(url, pssh, drm, map[]);
      var c := DashCache.Put(cache, key, route, now);
      assert key in c && c[key] == DashCache.Entry(now, route);
      DashCache.PutKeepsLive(cache, key, route, now);
      ("/" + name + DspDir + key + "/", c)
    else
      ("/" + name + DsDir + ProxyKey(alphabet, url) + "/", cache)
  }

  /** `P_ds`: the first component of the request path decodes to the base address, and
      the rest is appended after a `/`. */
  function PdsUrl(alphabet: Base64.Alphabet, path: string): (r: Result<string, RouteError>)
    requires Base64.Valid(alphabet)
  {
    var parts := Split(path, '/');
    match Base64.Decode(alphabet, parts[0])
    case None => Err(BadBase64)
    case Some(bytes) =>
      match Utf8.Decode(bytes)
      case None => Err(BadUtf8)
      case Some(base) => Ok(base + "/" + Join(parts[1..], "/"))
  }

  /** A request path made from a key without `/` comes back to the address it encodes,
      followed by `/` and the rest of the path. */
  lemma {:induction false} PdsRoundTrip(alphabet: Base64.Alphabet, url: string, rest: string)
    requires Base64.Valid(alphabet) && '/' !in ProxyKey(alphabet, url)
    ensures PdsUrl(alphabet, ProxyKey(alphabet, url) + "/" + rest) == Ok(url + "/" + rest)
  {
    var key := ProxyKey(alphabet, url);
    SplitCons(key, rest, '/');
    var parts := Split(key + "/" + rest, '/');
    assert parts[0] == key && parts[1..] == Split(rest, '/');
    JoinSplit(rest, '/');
    Base64.DecodeEncode(alphabet, Utf8.Encode(url));
    Utf8.DecodeEncode(url);
  }

  /** With the URL-safe alphabet every address survives the trip through `P_ds`. */
  lemma UrlSafeRoundTrip(url: string, rest: string)
    ensures PdsUrl(Base64.UrlSafe, ProxyKey(Base64.UrlSafe, url) + "/" + rest) == Ok(url + "/" + rest)
  {
    Base64.AlphabetsValid();
    Base64.UrlSafeNoSlash(Utf8.Encode(url));
    PdsRoundTrip(Base64.UrlSafe, url, rest);
  }

  /** The bytes of an ASCII pair and a `?`. */
  function QueryGroup(c1: char, c2: char): seq<Utf8.byte>
    requires c1 < '\U{80}' && c2 < '\U{80}'
  {
    [c1 as int, c2 as int, 63]
  }

  /** The digits of an ASCII pair and a `?`. */
  function QuerySextets(c1: char, c2: char): seq<Base64.Symbol>
    requires c1 < '\U{80}' && c2 < '\U{80}'
  {
    [Base64.D(Base64.D0(c1 as int)), Base64.D(Base64.D1(c1 as int, c2 as int)),
     Base64.D(Base64.D2(c2 as int, 63)), Base64.D(63)]
  }

  lemma AsciiTriple(c1: char, c2: char, c3: char)
    requires c1 < '\U{80}' && c2 < '\U{80}' && c3 < '\U{80}'
    ensures Utf8.Encode([c1, c2, c3]) == [c1 as int, c2 as int, c3 as int]
  {
    var s := [c1, c2, c3];
    assert s[1..] == [c2, c3] && s[1..][1..] == [c3] && s[1..][1..][1..] == [];
    assert Utf8.EncodeChar(c1) == [c1 as int] && Utf8.EncodeChar(c2) == [c2 as int];
    assert Utf8.EncodeChar(c3) == [c3 as int];
    assert Utf8.Encode([c3]) == [c3 as int] + [];
  }

  lemma QueryBytes(x: string, c1: char, c2: char, y: string)
    requires c1 < '\U{80}' && c2 < '\U{80}'
    ensures Utf8.Encode(x + [c1, c2, '?'] + y) == Utf8.Encode(x) + QueryGroup(c1, c2) + Utf8.Encode(y)
  {
    Utf8.EncodeAppend(x + [c1, c2, '?'], y);
    Utf8.EncodeAppend(x, [c1, c2, '?']);
    AsciiTriple(c1, c2, '?');
  }

  lemma QuerySextetsOf(bx: seq<Utf8.byte>, c1: char, c2: char, bz: seq<Utf8.byte>)
    requires |bx| % 3 == 0 && c1 < '\U{80}' && c2 < '\U{80}'
    ensures Base64.Sextets(bx + QueryGroup(c1, c2) + bz)
      == Base64.Sextets(bx) + QuerySextets(c1, c2) + Base64.Sextets(bz)
  {
    var g := QueryGroup(c1, c2);
    Base64.SextetsAppend(bx + g, bz);
    Base64.SextetsAppend(bx, g);
    assert g[3..] == [];
  }

  /** The rendering of an ASCII pair and a `?`: three digits that are not `/`, then `/`. */
  lemma QueryRender(c1: char, c2: char)
    requires c1 < '\U{80}' && c2 < '\U{80}'
    ensures var r := Base64.Render(Base64.Standard, QuerySextets(c1, c2));
      |r| == 4 && !HasChar(r[..3], '/') && r[3] == '/'
  {
    var a := Base64.Standard;
    var sg := QuerySextets(c1, c2);
    var r := Base64.Render(a, sg);
    Base64.StandardSlash(Base64.D0(c1 as int));
    Base64.StandardSlash(Base64.D1(c1 as int, c2 as int));
    Base64.StandardSlash(Base64.D2(c2 as int, 63));
    Base64.StandardSlash(63);
    assert r[0] != '/' && r[1] != '/' && r[2] != '/';
    forall i | 0 <= i < 3 ensures r[..3][i] != '/' {
    }
  }

  /** The key of an address whose bytes hold an ASCII pair and a `?` at a multiple of
      three after a prefix `x` is the keys of `x` and `y` around the pair's group. */
  lemma KeyParts(x: string, c1: char, c2: char, y: string)
    requires |Utf8.Encode(x)| % 3 == 0 && c1 < '\U{80}' && c2 < '\U{80}'
    ensures ProxyKey(Base64.Standard, x + [c1, c2, '?'] + y)
      == ProxyKey(Base64.Standard, x) + Base64.Render(Base64.Standard, QuerySextets(c1, c2))
         + ProxyKey(Base64.Standard, y)
  {
    var a := Base64.Standard;
    var u := x + [c1, c2, '?'] + y;
    var bx, g, bz := Utf8.Encode(x), QueryGroup(c1, c2), Utf8.Encode(y);
    var sx, sg, sz := Base64.Sextets(bx), QuerySextets(c1, c2), Base64.Sextets(bz);
    QueryBytes(x, c1, c2, y);
    assert Utf8.Encode(u) == bx + g + bz;
    QuerySextetsOf(bx, c1, c2, bz);
    assert Base64.Sextets(bx + g + bz) == sx + sg + sz;
    Base64.RenderAppend(a, sx + sg, sz);
    Base64.RenderAppend(a, sx, sg);
  }

  /** In such a key the `?` is the last byte of a group, and its digit 63 is a `/` in
      the standard alphabet. */
  lemma QueryKey(x: string, c1: char, c2: char, y: string)
    requires |Utf8.Encode(x)| % 3 == 0 && c1 < '\U{80}' && c2 < '\U{80}'
    ensures var r := Base64.Render(Base64.Standard, QuerySextets(c1, c2));
      ProxyKey(Base64.Standard, x + [c1, c2, '?'] + y)
        == ProxyKey(Base64.Standard, x) + r[..3] + "/" + ProxyKey(Base64.Standard, y)
  {
    KeyParts(x, c1, c2, y);
    QueryRender(c1, c2);
    var r := Base64.Render(Base64.Standard, QuerySextets(c1, c2));
    assert r == r[..3] + "/";
  }

  /** A first component that is no whole number of base64 groups fails to decode. */
  lemma PdsBadHead(alphabet: Base64.Alphabet, head: string, tail: string)
    requires Base64.Valid(alphabet) && !HasChar(head, '/') && |head| % 4 != 0
    ensures PdsUrl(alphabet, head + "/" + tail) == Err(BadBase64)
  {
    SplitCons(head, tail, '/');
    if Base64.Decode(alphabet, head).Some? {
      Base64.DecodeLength(alphabet, head);
    }
  }

  /** With the standard alphabet of `b64encode`, `P_ds` cannot route any base address
      that has an ASCII pair and a `?` at a multiple of three bytes after a prefix whose
      key holds no `/`: the path is split inside the key, and what is left of the key is
      no whole number of base64 groups. */
  lemma StandardRouteBreaks(x: string, c1: char, c2: char, y: string, rest: string)
    requires |Utf8.Encode(x)| % 3 == 0 && !HasChar(ProxyKey(Base64.Standard, x), '/')
    requires c1 < '\U{80}' && c2 < '\U{80}'
    ensures PdsUrl(Base64.Standard, ProxyKey(Base64.Standard, x + [c1, c2, '?'] + y) + "/" + rest) == Err(BadBase64)
  {
    var a := Base64.Standard;
    var r := Base64.Render(a, QuerySextets(c1, c2));
    QueryKey(x, c1, c2, y);
    QueryRender(c1, c2);
    BrokenHead(ProxyKey(a, x), r[..3], ProxyKey(a, y), rest);
  }

  /** A key cut one digit short of a whole group by a `/` does not decode. */
  lemma BrokenHead(kx: string, q: string, ky: string, rest: string)
    requires |kx| % 4 == 0 && |q| == 3 && !HasChar(kx, '/') && !HasChar(q, '/')
    ensures PdsUrl(Base64.Standard, kx + q + "/" + ky + "/" + rest) == Err(BadBase64)
  {
    NoCharAppend(kx, q, '/');
    assert kx + q + "/" + ky + "/" + rest == (kx + q) + "/" + (ky + "/" + rest);
    Base64.AlphabetsValid();
    PdsBadHead(Base64.Standard, kx + q, ky + "/" + rest);
  }

  lemma NoCharAppend(a: string, b: string, c: char)
    requires !HasChar(a, c) && !HasChar(b, c)
    ensures !HasChar(a + b, c)
  {
    forall i | 0 <= i < |a + b| ensures (a + b)[i] != c {
      if i >= |a| {
        assert (a + b)[i] == b[i - |a|];
      }
    }
  }

  /** The smallest such address. */
  lemma ShortQueryBreaks()
    ensures PdsUrl(Base64.Standard, ProxyKey(Base64.Standard, "tv?") + "/seg.m4s") == Err(BadBase64)
  {
    var a := Base64.Standard;
    assert Utf8.Encode("") == [];
    assert Base64.Sextets([]) == [];
    assert ProxyKey(a, "") == "";
    var url := "" + ['t', 'v', '?'] + "";
    assert url == "tv?";
    StandardRouteBreaks("", 't', 'v', "", "seg.m4s");
    assert ProxyKey(a, url) + "/" + "seg.m4s" == ProxyKey(a, "tv?") + "/seg.m4s";
  }

  // Segment templates

  const DotDotSlash := "dot-dot-slash"
  const ParentRef := "../"

  /** The template text as written into the manifest: every `../` spelt out. */
  function Escape(v: string): string {
    Replace(v, ParentRef, DotDotSlash)
  }

  /** What `P_dsp` does to the path after the segment type. */
  function Restore(u: string): string {
    Replace(u, DotDotSlash, ParentRef)
  }

  /** Two texts that agree as far as the shorter one goes. */
  predicate Compatible(a: string, b: string) {
    StartsWith(a, b) || StartsWith(b, a)
  }

  /** A text that starts with `../` escapes to one that starts with the marker. */
  lemma MarkerPrefix(w: string, t: string)
    ensures StartsWith(w, ParentRef) && StartsWith(Escape(w), t) && |t| > 0 ==> Compatible(t[0..], DotDotSlash)
  {
    if StartsWith(w, ParentRef) && StartsWith(Escape(w), t) && |t| > 0 {
      var e := Escape(w);
      assert e == DotDotSlash + Escape(w[3..]);
      assert t[0..] == t;
      if |t| <= |DotDotSlash| {
        assert e[..|t|] == DotDotSlash[..|t|];
      } else {
        assert t[..|DotDotSlash|] == e[..|DotDotSlash|];
      }
    }
  }

  /** If the escaped text starts with `t`, so does the text itself, provided no suffix of
      `t` could be the start of a spelt-out `../`. */
  lemma {:induction false} EscapeAgree(w: string, t: string)
    requires forall k :: 0 <= k < |t| ==> !Compatible(t[k..], DotDotSlash)
    requires StartsWith(Escape(w), t)
    ensures StartsWith(w, t)
    decreases |w|
  {
    if |t| > 0 && |w| > 0 {
      if StartsWith(w, ParentRef) {
        MarkerPrefix(w, t);
        assert false;
      } else {
        assert Escape(w) == [w[0]] + Escape(w[1..]);
        forall k | 0 <= k < |t[1..]| ensures !Compatible(t[1..][k..], DotDotSlash) {
          assert t[1..][k..] == t[k + 1..];
        }
        assert StartsWith(Escape(w[1..]), t[1..]);
        EscapeAgree(w[1..], t[1..]);
      }
    }
  }

  lemma TailOfMarker()
    ensures forall k :: 0 <= k < |DotDotSlash[1..]| ==> !Compatible(DotDotSlash[1..][k..], DotDotSlash)
  {
    var t := DotDotSlash[1..];
    forall k | 0 <= k < |t| ensures !Compatible(t[k..], DotDotSlash) {
      var x := t[k..];
      assert x[0] == t[k];
      if k == 3 {
        assert x[4] == 's' && DotDotSlash[4] == 'd';
      } else {
        assert t[k] != 'd';
      }
    }
  }

  lemma NotContainsTail(v: string, n: nat)
    requires n <= |v| && !Contains(v, DotDotSlash)
    ensures !Contains(v[n..], DotDotSlash)
    decreases n
  {
    if n > 0 {
      assert v[1..][n - 1..] == v[n..];
      NotContainsTail(v[1..], n - 1);
    }
  }

  /** Restoring an escaped template gives it back, unless the template already spelt
      `dot-dot-slash` itself. */
  lemma {:induction false} RestoreEscape(v: string)
    requires !Contains(v, DotDotSlash)
    ensures Restore(Escape(v)) == v
    decreases |v|
  {
    if |v| > 0 {
      if StartsWith(v, ParentRef) {
        var w := Escape(v[3..]);
        assert Escape(v) == DotDotSlash + w;
        assert StartsWith(DotDotSlash + w, DotDotSlash);
        assert (DotDotSlash + w)[13..] == w;
        NotContainsTail(v, 3);
        RestoreEscape(v[3..]);
        assert ParentRef + v[3..] == v;
      } else {
        var w := Escape(v[1..]);
        assert Escape(v) == [v[0]] + w;
        assert !StartsWith([v[0]] + w, DotDotSlash) by {
          if StartsWith([v[0]] + w, DotDotSlash) {
            assert StartsWith(w, DotDotSlash[1..]);
            TailOfMarker();
            EscapeAgree(v[1..], DotDotSlash[1..]);
          }
        }
        assert ([v[0]] + w)[1..] == w;
        NotContainsTail(v, 1);
        RestoreEscape(v[1..]);
        assert [v[0]] + v[1..] == v;
      }
    }
  }

  /** A text without `.` has no `../` to escape. */
  lemma {:induction false} EscapeNoDot(v: string)
    requires !HasChar(v, '.')
    ensures Escape(v) == v
    decreases |v|
  {
    if |v| > 0 {
      assert v[0] != '.';
      assert !HasChar(v[1..], '.') by {
        forall j | 0 <= j < |v| - 1 ensures v[1..][j] != '.' {
          assert v[1..][j] == v[j + 1];
        }
      }
      EscapeNoDot(v[1..]);
      assert [v[0]] + v[1..] == v;
    }
  }

  /** A template that spells `dot-dot-slash` itself comes back with `../` there. */
  lemma RestoreLiteralMarker()
    ensures Restore(Escape(DotDotSlash)) == ParentRef
  {
    EscapeNoDot(DotDotSlash);
    assert StartsWith(DotDotSlash, DotDotSlash);
    assert DotDotSlash[13..] == "";
    assert ParentRef + "" == ParentRef;
  }

  /** A `P_dsp` request once the route is known: the segment type and the address. */
  datatype DspRequest<R> = DspRequest(key: string, route: DrmRoute<R>, segmentType: string, url: string)

  /** `P_dsp`: look the first component up in the cache (marking it used at `now`), take
      the second as the segment type, and join the restored rest onto the cached address.
      The cache comes back even when the request fails. */
  function PdspRequest<R>(urljoin: (string, string) -> string, cache: DashCache.Cache<DrmRoute<R>>,
                          path: string, now: int): (r: (DashCache.Cache<DrmRoute<R>>, Result<DspRequest<R>, RouteError>))
    ensures r.1.Ok? ==> Split(path, '/')[0] in cache && r.1.value.route == cache[Split(path, '/')[0]].data
    ensures r.1.Ok? ==> r.1.value.key == Split(path, '/')[0]
    ensures r.1.Ok? ==> |Split(path, '/')| >= 2 && r.1.value.segmentType == Split(path, '/')[1]
    ensures Split(path, '/')[0] !in cache ==> r == (cache, Err(MissingRoute))
    ensures var key := Split(path, '/')[0];
      key in cache ==> r.0 == cache[key := DashCache.Entry(now, cache[key].data)]
    ensures r.1.Err? ==> r.1.error == MissingRoute || (r.1.error == MissingSegmentType && |Split(path, '/')| < 2)
  {
    var parts := Split(path, '/');
    match DashCache.Get(cache, parts[0], now)
    case Err(_) => (cache, Err(MissingRoute))
    case Ok((c, route)) =>
      if |parts| < 2 then (c, Err(MissingSegmentType))
      else (c, Ok(DspRequest(parts[0], route, parts[1], urljoin(route.url, Restore(Join(parts[2..], "/"))))))
  }

  lemma DspSplit(key: string, segmentType: string, rest: string)
    requires !HasChar(key, '/') && !HasChar(segmentType, '/')
    ensures Split(key + "/" + segmentType + "/" + rest, '/') == [key, segmentType] + Split(rest, '/')
  {
    var tail := segmentType + "/" + rest;
    assert key + "/" + segmentType + "/" + rest == key + "/" + tail;
    SplitCons(key, tail, '/');
    SplitCons(segmentType, rest, '/');
  }

  /** The components of a `P_dsp` request path. */
  lemma DspPathParts(key: string, segmentType: string, rest: string)
    requires !HasChar(key, '/') && !HasChar(segmentType, '/')
    ensures var parts := Split(key + "/" + segmentType + "/" + rest, '/');
      |parts| >= 2 && parts[0] == key && parts[1] == segmentType && Join(parts[2..], "/") == rest
  {
    DspSplit(key, segmentType, rest);
    var parts := [key, segmentType] + Split(rest, '/');
    assert parts[2..] == Split(rest, '/');
    JoinSplit(rest, '/');
  }

  /** A segment requested under a DRM base address made by `Proxify` reaches the cached
      route, with its type and its template restored, at any later time. */
  lemma PdspRoundTrip<R>(alphabet: Base64.Alphabet, md5: string -> string,
      urljoin: (string, string) -> string, name: string, cache: DashCache.Cache<DrmRoute<R>>,
      url: string, pssh: seq<string>, drm: R, now: int, later: int, segmentType: string, template: string)
    requires |pssh| > 0 && !HasChar(md5(url), '/') && !HasChar(segmentType, '/')
    requires !Contains(template, DotDotSlash)
    ensures var c := Proxify(alphabet, md5, name, cache, url, pssh, drm, now).1;
      var r := PdspRequest(urljoin, c, md5(url) + "/" + segmentType + "/" + Escape(template), later).1;
      r == Ok(DspRequest(md5(url), DrmRoute(url, pssh, drm, map[]), segmentType, urljoin(url, template)))
  {
    DspPathParts(md5(url), segmentType, Escape(template));
    RestoreEscape(template);
  }

  // The playlist response

  /** `redirect_url[:redirect_url.rfind('/')] + '/'`: the response address up to its last
      `/`; with no `/` at all Python's index -1 drops the last character instead. */
  function RedirectBase(url: string): (r: string)
    ensures EndsWith(r, "/")
    ensures HasChar(url, '/') ==> r == url[..RFindChar(url, '/') + 1]
    ensures !HasChar(url, '/') && |url| > 0 ==> r == url[..|url| - 1] + "/"
  {
    var i := RFindChar(url, '/');
    if i >= 0 then url[..i] + "/"
    else if |url| > 0 then url[..|url| - 1] + "/"
    else "/"
  }

  /** Taking the base of a base changes nothing. */
  lemma RedirectBaseIdempotent(url: string)
    requires HasChar(url, '/')
    ensures RedirectBase(RedirectBase(url)) == RedirectBase(url)
  {
    var r := RedirectBase(url);
    assert r[|r| - 1] == '/';
    assert HasChar(r, '/');
    assert RFindChar(r, '/') == |r| - 1;
    assert r[..|r|] == r;
  }

  /** The base is a prefix of the address, and what follows it holds no `/`. */
  lemma RedirectBaseSplits(url: string)
    requires HasChar(url, '/')
    ensures StartsWith(url, RedirectBase(url))
    ensures !HasChar(url[|RedirectBase(url)|..], '/')
  {
    var r := RedirectBase(url);
    var i := RFindChar(url, '/');
    assert i >= 0;
    forall j | i + 1 <= j < |url| ensures url[j] != '/' {
    }
    assert r == url[..i + 1];
  }

  const DefaultCeiling := 1000000000

  /** The bandwidth a provider hands over with the stream (`dash_info.get('bandwidth')`):
      a number or a text. */
  datatype BandwidthValue = IntBandwidth(n: int) | TextBandwidth(text: string)

  /** `int(bandwidth)` in `p_continue` raises `ValueError`. */
  datatype PlaylistError = BandwidthRejected(text: string)

  /** The bandwidth ceiling: 1000000000 when none is asked for, else `int` of the one
      asked for; `None` where `int` raises. */
  function Ceiling(bandwidth: Option<BandwidthValue>): (c: Option<int>)
    ensures bandwidth.None? ==> c == Some(DefaultCeiling)
    ensures bandwidth.Some? && bandwidth.value.IntBandwidth? ==> c == Some(bandwidth.value.n)
    ensures c.None? ==> bandwidth.Some? && bandwidth.value.TextBandwidth?
  {
    match bandwidth
    case None => Some(DefaultCeiling)
    case Some(IntBandwidth(n)) => Some(n)
    case Some(TextBandwidth(t)) => ParseInt(t)
  }

  /** A ceiling written out in decimal, with white space around it as `int` allows, is
      read back as the number. */
  lemma CeilingWritten(n: nat, left: string, right: string)
    requires forall i :: 0 <= i < |left| ==> IsSpace(left[i])
    requires forall i :: 0 <= i < |right| ==> IsSpace(right[i])
    ensures Ceiling(Some(TextBandwidth(left + NatToString(n) + right))) == Some(n)
  {
    var d := NatToString(n);
    StripAround(left, d, right);
  }

  /** A negative ceiling keeps its sign. */
  lemma CeilingNegative(n: nat)
    requires n > 0
    ensures Ceiling(Some(TextBandwidth("-" + NatToString(n)))) == Some(-(n as int))
  {
    var t := "-" + NatToString(n);
    assert t[1..] == NatToString(n);
    assert Stripped(t);
    StripStripped(t);
  }

  /** A text that is not a number is rejected, as `int` rejects `"2M"`, and so is a
      blank one. */
  lemma CeilingRejects(t: string)
    requires |Strip(t)| == 0 || (!IsDigit(Strip(t)[0]) && Strip(t)[0] != '-' && Strip(t)[0] != '+')
    ensures Ceiling(Some(TextBandwidth(t))).None?
  {
  }

  /** `p_continue` up to the manifest: `None` (the callback's `None`) unless the status
      is 200, else the base address and the ceiling the manifest is rewritten with; a
      bandwidth `int` rejects raises. */
  function PlaylistResponse(status: int, responseUrl: string, bandwidth: Option<BandwidthValue>)
    : (r: Result<Option<(string, int)>, PlaylistError>)
    ensures r == Ok(None) <==> status != 200
    ensures r.Err? <==> status == 200 && Ceiling(bandwidth).None?
    ensures r.Err? ==> r.error == BandwidthRejected(bandwidth.value.text)
    ensures r.Ok? && r.value.Some? ==> r.value.value == (RedirectBase(responseUrl), Ceiling(bandwidth).value)
  {
    if status != 200 then Ok(None)
    else match Ceiling(bandwidth)
      case None => Err(BandwidthRejected(bandwidth.value.text))
      case Some(c) => Ok(Some((RedirectBase(responseUrl), c)))
  }
}
