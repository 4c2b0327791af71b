/** Handling of one DRM protected DASH segment: init segments are remembered
    per segment type, media segments are decrypted with the content keys of
    every pssh of the stream. The licence server round trip and the mp4
    decryption are opaque functions given as parameters; the handler's pssh
    key cache is the `memo` map threaded through the calls. */
module DashSegment {
  import opened Wrappers
  import Utf8
  import Text
  import DashCache
  import DashRouting

  type Bytes = seq<Utf8.byte>

  /** Keys remembered per pssh; `None` is a failed licence request, which is
      asked again the next time the pssh is needed. */
  type KeyMemo<K> = map<string, Option<seq<K>>>

  datatype SegmentError = EmptySegmentType | MissingInit(segmentType: string)

  /** The cached keys of a pssh, when a successful earlier request left them. */
  predicate Known<K>(memo: KeyMemo<K>, p: string) {
    p in memo && memo[p].Some?
  }

  /** Keys of one pssh: from the memo, or fetched and then remembered. */
  function KeysOf<K, R>(fetch: (string, R) -> Option<seq<K>>, drm: R, memo: KeyMemo<K>, p: string)
    : (r: (seq<K>, KeyMemo<K>))
    ensures Known(memo, p) ==> r == (memo[p].value, memo)
    ensures !Known(memo, p) ==> r.1 == memo[p := fetch(p, drm)]
    ensures !Known(memo, p) ==> r.0 == fetch(p, drm).GetOr([])
  {
    if Known(memo, p) then (memo[p].value, memo)
    else
      var k := fetch(p, drm);
      (if k.Some? then k.value else [], memo[p := k])
  }

  /** The keys of all pssh of a stream, in pssh order, with the updated memo. */
  function CollectKeys<K, R>(fetch: (string, R) -> Option<seq<K>>, drm: R, memo: KeyMemo<K>, pssh: seq<string>)
    : (r: (seq<K>, KeyMemo<K>))
    ensures forall i :: 0 <= i < |pssh| ==> pssh[i] in r.1
    ensures forall p :: p in memo && p !in pssh ==> p in r.1 && r.1[p] == memo[p]
    ensures forall p :: p in r.1 ==> p in memo || p in pssh
    ensures forall p :: Known(memo, p) ==> Known(r.1, p) && r.1[p] == memo[p]
    ensures forall p :: p in pssh && !Known(memo, p) ==> r.1[p] == fetch(p, drm)
    decreases |pssh|
  {
    if |pssh| == 0 then ([], memo)
    else
      var (k, m1) := KeysOf(fetch, drm, memo, pssh[0]);
      var (rest, m2) := CollectKeys(fetch, drm, m1, pssh[1..]);
      (k + rest, m2)
  }

  /** Reference definition: the keys every pssh yields against a fixed memo. */
  function Flatten<K, R>(fetch: (string, R) -> Option<seq<K>>, drm: R, memo: KeyMemo<K>, pssh: seq<string>): seq<K>
    decreases |pssh|
  {
    if |pssh| == 0 then [] else KeysOf(fetch, drm, memo, pssh[0]).0 + Flatten(fetch, drm, memo, pssh[1..])
  }

  /** With every pssh already known, the keys are the remembered ones in order
      and the licence server is not asked: the memo comes back unchanged. */
  lemma {:induction false} CollectKnown<K, R>(fetch: (string, R) -> Option<seq<K>>, drm: R, memo: KeyMemo<K>, pssh: seq<string>)
    requires forall i :: 0 <= i < |pssh| ==> Known(memo, pssh[i])
    ensures CollectKeys(fetch, drm, memo, pssh) == (Flatten(fetch, drm, memo, pssh), memo)
    decreases |pssh|
  {
    if |pssh| > 0 {
      CollectKnown(fetch, drm, memo, pssh[1..]);
    }
  }

  /** Two memos that give every pssh the same keys. */
  ghost predicate SameKeys<K, R>(fetch: (string, R) -> Option<seq<K>>, drm: R, m1: KeyMemo<K>, m2: KeyMemo<K>) {
    forall q :: KeysOf(fetch, drm, m1, q).0 == KeysOf(fetch, drm, m2, q).0
  }

  lemma {:induction false} FlattenSame<K, R>(fetch: (string, R) -> Option<seq<K>>, drm: R, m1: KeyMemo<K>, m2: KeyMemo<K>, pssh: seq<string>)
    requires SameKeys(fetch, drm, m1, m2)
    ensures Flatten(fetch, drm, m1, pssh) == Flatten(fetch, drm, m2, pssh)
    decreases |pssh|
  {
    if |pssh| > 0 {
      FlattenSame(fetch, drm, m1, m2, pssh[1..]);
    }
  }

  /** Remembering the answer for one pssh changes no pssh's keys. */
  lemma KeysOfKeepsKeys<K, R>(fetch: (string, R) -> Option<seq<K>>, drm: R, memo: KeyMemo<K>, p: string)
    ensures SameKeys(fetch, drm, KeysOf(fetch, drm, memo, p).1, memo)
  {
    var m1 := KeysOf(fetch, drm, memo, p).1;
    forall q
      ensures KeysOf(fetch, drm, m1, q).0 == KeysOf(fetch, drm, memo, q).0
    {
      if q != p && !Known(memo, p) {
        assert Known(m1, q) == Known(memo, q);
      }
    }
  }

  /** The keys collected for a stream are the keys each pssh has against the
      memo at the start, concatenated in pssh order, whatever the memo learns
      on the way. */
  lemma {:induction false} CollectFlatten<K, R>(fetch: (string, R) -> Option<seq<K>>, drm: R, memo: KeyMemo<K>, pssh: seq<string>)
    ensures CollectKeys(fetch, drm, memo, pssh).0 == Flatten(fetch, drm, memo, pssh)
    decreases |pssh|
  {
    if |pssh| > 0 {
      var m1 := KeysOf(fetch, drm, memo, pssh[0]).1;
      CollectFlatten(fetch, drm, m1, pssh[1..]);
      KeysOfKeepsKeys(fetch, drm, memo, pssh[0]);
      FlattenSame(fetch, drm, m1, memo, pssh[1..]);
    }
  }

  /** Running the collection again with the memo the first run left gives the
      same keys and leaves the memo as it is. */
  lemma {:induction false} CollectAgain<K, R>(fetch: (string, R) -> Option<seq<K>>, drm: R, memo: KeyMemo<K>, pssh: seq<string>)
    ensures var (keys, m) := CollectKeys(fetch, drm, memo, pssh);
            CollectKeys(fetch, drm, m, pssh) == (keys, m)
    decreases |pssh|
  {
    if |pssh| > 0 {
      var p := pssh[0];
      var (k, m1) := KeysOf(fetch, drm, memo, p);
      var (rest, m2) := CollectKeys(fetch, drm, m1, pssh[1..]);
      assert p in m2;
      var (k', m1') := KeysOf(fetch, drm, m2, p);
      if Known(memo, p) {
        assert m2[p] == memo[p];
        assert m1' == m2;
      } else {
        assert m1[p] == fetch(p, drm);
        if fetch(p, drm).Some? {
          assert Known(m1, p) && m2[p] == m1[p];
          assert m1' == m2;
        } else {
          assert !Known(m2, p);
          assert m2[p] == fetch(p, drm);
          assert m1' == m2[p := fetch(p, drm)] == m2;
        }
      }
      assert k' == k;
      CollectAgain(fetch, drm, m1, pssh[1..]);
    }
  }

  /** Result of processing one segment: `Ok(None)` is the source's `None`
      (no keys), which the request handler answers with 501. */
  datatype Outcome<R, K> = Outcome(route: DashRouting.DrmRoute<R>, memo: KeyMemo<K>, result: Result<Option<Bytes>, SegmentError>)

  /** Process the body of a segment of type `segmentType`. A type starting
      with 'i' is an init segment: its data is remembered under the rest of the
      type and passed through. Any other segment is decrypted with the keys of
      every pssh, using the init segment remembered under the same rest. */
  function ProcessSegment<R, K>(fetch: (string, R) -> Option<seq<K>>, decrypt: (seq<K>, Bytes, Bytes) -> Bytes,
                                memo: KeyMemo<K>, route: DashRouting.DrmRoute<R>, segmentType: string, data: Bytes)
    : (r: Outcome<R, K>)
    ensures |segmentType| == 0 <==> r.result == Err(EmptySegmentType)
    ensures |segmentType| > 0 && segmentType[0] == 'i' ==>
              r.result == Ok(Some(data)) && r.memo == memo &&
              r.route == route.(init := route.init[segmentType[1..] := data])
    ensures |segmentType| > 0 && segmentType[0] != 'i' ==>
              r.route == route && r.memo == CollectKeys(fetch, route.drm, memo, route.pssh).1
    ensures r.result.Ok? && r.result.value.Some? && |segmentType| > 0 && segmentType[0] != 'i' ==>
              segmentType[1..] in route.init && |CollectKeys(fetch, route.drm, memo, route.pssh).0| > 0
    ensures r.result == Ok(None) <==>
              |segmentType| > 0 && segmentType[0] != 'i' && |CollectKeys(fetch, route.drm, memo, route.pssh).0| == 0
  {
    if |segmentType| == 0 then Outcome(route, memo, Err(EmptySegmentType))
    else if segmentType[0] == 'i' then
      Outcome(route.(init := route.init[segmentType[1..] := data]), memo, Ok(Some(data)))
    else
      var (keys, m) := CollectKeys(fetch, route.drm, memo, route.pssh);
      if |keys| == 0 then Outcome(route, m, Ok(None))
      else if segmentType[1..] !in route.init then Outcome(route, m, Err(MissingInit(segmentType[1..])))
      else Outcome(route, m, Ok(Some(decrypt(keys, route.init[segmentType[1..]], data))))
  }

  /** After an init segment of a type has been seen, a media segment of the
      matching type is decrypted against exactly that init data. */
  lemma InitThenMedia<R, K>(fetch: (string, R) -> Option<seq<K>>, decrypt: (seq<K>, Bytes, Bytes) -> Bytes,
                           memo: KeyMemo<K>, route: DashRouting.DrmRoute<R>, rest: string, init: Bytes, data: Bytes, media: char)
    requires media != 'i'
    requires |CollectKeys(fetch, route.drm, memo, route.pssh).0| > 0
    ensures var o := ProcessSegment(fetch, decrypt, memo, route, ['i'] + rest, init);
            var keys := CollectKeys(fetch, route.drm, memo, route.pssh).0;
            ProcessSegment(fetch, decrypt, o.memo, o.route, [media] + rest, data).result
              == Ok(Some(decrypt(keys, init, data)))
  {
    var o := ProcessSegment(fetch, decrypt, memo, route, ['i'] + rest, init);
    assert (['i'] + rest)[1..] == rest;
    assert ([media] + rest)[1..] == rest;
    assert o.route.init[rest] == init;
  }

  /** HTTP answer to a segment request: an upstream error status or a segment
      that yields no data is answered with 501; otherwise 200 with the data and
      the upstream headers, its Content-Length replaced by the new length. */
  datatype Answer = Answer(code: int, headers: seq<(string, string)>, body: Bytes)

  const ContentLength := "Content-Length"

  function Without(headers: seq<(string, string)>, name: string): (r: seq<(string, string)>)
    ensures forall i :: 0 <= i < |r| ==> r[i].0 != name && r[i] in headers
    ensures forall i :: 0 <= i < |headers| && headers[i].0 != name ==> headers[i] in r
    decreases |headers|
  {
    if |headers| == 0 then []
    else (if headers[0].0 == name then [] else [headers[0]]) + Without(headers[1..], name)
  }

  /** The answer for an upstream response with `status`, `headers` and body
      processed into `processed`. A failed processing (the source raises) has
      no answer. The new length is written in decimal, as `str` writes it. */
  function SegmentAnswer(status: int, headers: seq<(string, string)>, processed: Result<Option<Bytes>, SegmentError>)
    : (r: Option<Answer>)
    ensures status >= 400 ==> r == Some(Answer(501, [], []))
    ensures status < 400 && processed.Err? ==> r.None?
    ensures r.Some? && r.value.code == 200 ==>
              status < 400 && processed.Ok? && processed.value.Some? && |processed.value.value| > 0 &&
              r.value.body == processed.value.value &&
              |r.value.headers| > 0 && r.value.headers[|r.value.headers| - 1].0 == ContentLength &&
              forall i :: 0 <= i < |r.value.headers| - 1 ==> r.value.headers[i].0 != ContentLength
    ensures r.Some? && r.value.code == 200 ==>
              var length := r.value.headers[|r.value.headers| - 1].1;
              Text.AllDigits(length) && Text.DigitsValue(length) == |r.value.body|
    ensures r.Some? && r.value.code == 200 ==>
              forall i :: 0 <= i < |headers| && headers[i].0 != ContentLength ==> headers[i] in r.value.headers
    ensures status < 400 && processed.Ok? && (processed.value.None? || |processed.value.value| == 0) ==>
              r == Some(Answer(501, [], []))
    ensures status < 400 && processed.Ok? && processed.value.Some? && |processed.value.value| > 0 ==>
              r.Some? && r.value.code == 200
  {
    if status >= 400 then Some(Answer(501, [], []))
    else if processed.Err? then None
    else if processed.value.None? || |processed.value.value| == 0 then Some(Answer(501, [], []))
    else
      var data := processed.value.value;
      Some(Answer(200, Without(headers, ContentLength) + [(ContentLength, Text.NatToString(|data|))], data))
  }

  // One whole `P_dsp` request

  type RouteCache<R> = DashCache.Cache<DashRouting.DrmRoute<R>>

  /** The upstream answer to the rebuilt segment address. */
  datatype Upstream = Upstream(status: int, headers: seq<(string, string)>, body: Bytes)

  /** Why a `P_dsp` request raises instead of answering. */
  datatype DspError = RouteFailed(route: DashRouting.RouteError) | SegmentFailed(segment: SegmentError)

  datatype DspOutcome<R, K> = DspOutcome(cache: RouteCache<R>, memo: KeyMemo<K>, answer: Result<Answer, DspError>)

  /** `P_dsp` with `resp` the upstream answer to the address the request names. The
      dictionary `process_drm_protected_segment` writes the init data into is the one
      the route cache holds, so the processed route goes back into the cache under the
      request's key, with the time of the lookup. */
  function Pdsp<R, K>(urljoin: (string, string) -> string, fetch: (string, R) -> Option<seq<K>>,
                      decrypt: (seq<K>, Bytes, Bytes) -> Bytes, cache: RouteCache<R>, memo: KeyMemo<K>,
                      path: string, now: int, resp: Upstream)
    : (r: DspOutcome<R, K>)
    ensures r.cache.Keys == cache.Keys
    ensures forall k :: k in cache && k != Text.Split(path, '/')[0] ==> r.cache[k] == cache[k]
    ensures Text.Split(path, '/')[0] !in cache ==> r == DspOutcome(cache, memo, Err(RouteFailed(DashRouting.MissingRoute)))
    ensures var key := Text.Split(path, '/')[0];
      key in cache ==> r.cache[key].lastUsed == now
    ensures var key := Text.Split(path, '/')[0];
      key in cache && (|Text.Split(path, '/')| < 2 || resp.status >= 400) ==>
        r.cache[key] == DashCache.Entry(now, cache[key].data) && r.memo == memo
    ensures var key := Text.Split(path, '/')[0]; var parts := Text.Split(path, '/');
      key in cache && |parts| >= 2 && resp.status < 400 ==>
        var o := ProcessSegment(fetch, decrypt, memo, cache[key].data, parts[1], resp.body);
        r.cache[key].data == o.route && r.memo == o.memo &&
        (r.answer.Ok? <==> SegmentAnswer(resp.status, resp.headers, o.result).Some?) &&
        (r.answer.Ok? ==> r.answer.value == SegmentAnswer(resp.status, resp.headers, o.result).value)
  {
    var (c, req) := DashRouting.PdspRequest(urljoin, cache, path, now);
    if req.Err? then DspOutcome(c, memo, Err(RouteFailed(req.error)))
    else if resp.status >= 400 then DspOutcome(c, memo, Ok(Answer(501, [], [])))
    else
      var key := req.value.key;
      var o := ProcessSegment(fetch, decrypt, memo, req.value.route, req.value.segmentType, resp.body);
      var c' := c[key := DashCache.Entry(now, o.route)];
      match SegmentAnswer(resp.status, resp.headers, o.result)
      case None => DspOutcome(c', o.memo, Err(SegmentFailed(o.result.error)))
      case Some(a) => DspOutcome(c', o.memo, Ok(a))
  }

  /** An init segment and then a media segment of the same type number, requested
      through the route cache under the same key: the media segment is decrypted
      against the init data of the first request. */
  lemma InitThenMediaCached<R, K>(urljoin: (string, string) -> string, fetch: (string, R) -> Option<seq<K>>,
                                  decrypt: (seq<K>, Bytes, Bytes) -> Bytes, cache: RouteCache<R>, memo: KeyMemo<K>,
                                  key: string, number: string, media: char, initPath: string, mediaPath: string,
                                  now: int, later: int, initResp: Upstream, mediaResp: Upstream)
    requires key in cache && !Text.HasChar(key, '/') && !Text.HasChar(number, '/')
    requires media != 'i' && media != '/'
    requires initResp.status < 400 && mediaResp.status < 400
    requires |CollectKeys(fetch, cache[key].data.drm, memo, cache[key].data.pssh).0| > 0
    ensures var first := Pdsp(urljoin, fetch, decrypt, cache, memo, key + "/" + (['i'] + number) + "/" + initPath, now, initResp);
      var second := Pdsp(urljoin, fetch, decrypt, first.cache, first.memo,
                         key + "/" + ([media] + number) + "/" + mediaPath, later, mediaResp);
      var keys := CollectKeys(fetch, cache[key].data.drm, memo, cache[key].data.pssh).0;
      SegmentAnswer(mediaResp.status, mediaResp.headers, Ok(Some(decrypt(keys, initResp.body, mediaResp.body)))).Some? &&
      second.answer == Ok(SegmentAnswer(mediaResp.status, mediaResp.headers,
                                        Ok(Some(decrypt(keys, initResp.body, mediaResp.body)))).value)
  {
    var initType, mediaType := ['i'] + number, [media] + number;
    NoSlashCons('i', number);
    NoSlashCons(media, number);
    DashRouting.DspPathParts(key, initType, initPath);
    DashRouting.DspPathParts(key, mediaType, mediaPath);
    var initFull := key + "/" + initType + "/" + initPath;
    var mediaFull := key + "/" + mediaType + "/" + mediaPath;
    PdspInit(urljoin, fetch, decrypt, cache, memo, initFull, now, initResp, number);
    var first := Pdsp(urljoin, fetch, decrypt, cache, memo, initFull, now, initResp);
    var route := cache[key].data;
    var stored := first.cache[key].data;
    assert stored.drm == route.drm && stored.pssh == route.pssh && stored.init[number] == initResp.body;
    PdspMedia(urljoin, fetch, decrypt, first.cache, memo, mediaFull, later, mediaResp, media, number);
  }

  /** An init request stores its body in the cached route under its type number and
      leaves the memo alone. */
  lemma PdspInit<R, K>(urljoin: (string, string) -> string, fetch: (string, R) -> Option<seq<K>>,
                       decrypt: (seq<K>, Bytes, Bytes) -> Bytes, cache: RouteCache<R>, memo: KeyMemo<K>,
                       path: string, now: int, resp: Upstream, number: string)
    requires Text.Split(path, '/')[0] in cache && |Text.Split(path, '/')| >= 2
    requires Text.Split(path, '/')[1] == ['i'] + number && resp.status < 400
    ensures var key := Text.Split(path, '/')[0];
      var r := Pdsp(urljoin, fetch, decrypt, cache, memo, path, now, resp);
      key in r.cache && r.memo == memo &&
      r.cache[key].data == cache[key].data.(init := cache[key].data.init[number := resp.body])
  {
    assert (['i'] + number)[1..] == number;
  }

  /** A media request whose type number has init data in the cached route is answered
      with the segment decrypted against that init data. */
  lemma PdspMedia<R, K>(urljoin: (string, string) -> string, fetch: (string, R) -> Option<seq<K>>,
                        decrypt: (seq<K>, Bytes, Bytes) -> Bytes, cache: RouteCache<R>, memo: KeyMemo<K>,
                        path: string, now: int, resp: Upstream, media: char, number: string)
    requires Text.Split(path, '/')[0] in cache && |Text.Split(path, '/')| >= 2
    requires Text.Split(path, '/')[1] == [media] + number && media != 'i' && resp.status < 400
    requires var route := cache[Text.Split(path, '/')[0]].data;
      number in route.init && |CollectKeys(fetch, route.drm, memo, route.pssh).0| > 0
    ensures var route := cache[Text.Split(path, '/')[0]].data;
      var keys := CollectKeys(fetch, route.drm, memo, route.pssh).0;
      var a := SegmentAnswer(resp.status, resp.headers, Ok(Some(decrypt(keys, route.init[number], resp.body))));
      a.Some? && Pdsp(urljoin, fetch, decrypt, cache, memo, path, now, resp).answer == Ok(a.value)
  {
    assert ([media] + number)[1..] == number;
  }

  lemma NoSlashCons(c: char, s: string)
    requires c != '/' && !Text.HasChar(s, '/')
    ensures !Text.HasChar([c] + s, '/')
  {
    assert forall i :: 0 < i < |[c] + s| ==> ([c] + s)[i] == s[i - 1];
  }
}
