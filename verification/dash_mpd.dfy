/** `handle_mpd_manifest` on the element tree: every Period has its
    AdaptationSets processed, its audio sets moved to the end with Czech and
    Slovak tracks first, and its base address pointed at the proxy. */
module MpdManifest {
  import opened Wrappers
  import opened Text
  import opened MpdTree
  import opened MpdAdaptation
  import Sequences
  import Base64
  import DashCache
  import DashRouting

  type Cache<R> = DashCache.Cache<DashRouting.DrmRoute<R>>

  /** What the handler knows besides the manifest: the base64 alphabet the
      proxy encodes clear addresses with, the digest and URL join functions,
      its own name, whether segments go through the proxy, the stream's DRM
      data and the current time. The handler as written uses
      `Base64.Standard`; `Base64.UrlSafe` gives the corrected route. */
  datatype Env<R> = Env(alphabet: Base64.Alphabet, md5: string -> string, urljoin: (string, string) -> string,
                        name: string, proxySegments: bool, drm: R, now: int)

  // Audio order

  const CzechSlovak: set<string> := {"cs", "sk", "ces", "cze", "slo", "slk"}

  predicate Preferred(a: Element) {
    Lower(AttrOr(a, "lang", "")) in CzechSlovak
  }

  /** A Slovak track whose language code is written with the Kelvin sign is
      still preferred, as `lower()` turns it into `sk`. */
  lemma PreferredKelvin(a: Element)
    requires Attr(a, "lang") == Some("s\U{212A}")
    ensures Preferred(a)
  {
    assert Lower("s\U{212A}") == "sk";
  }

  predicate IsAudioSet(c: Element, ns: string) {
    c.tag == ns + "AdaptationSet" && IsAudio(c)
  }

  /** The Czech/Slovak-first order of the audio sets. */
  function AudioOrder(audio: seq<Element>): seq<Element> {
    Sequences.StableByKey(audio, Preferred)
  }

  /** The audio order is a permutation with every Czech or Slovak track
      before every other one, and each group keeps its document order. */
  lemma AudioOrderSorted(audio: seq<Element>)
    ensures multiset(AudioOrder(audio)) == multiset(audio)
    ensures var r := AudioOrder(audio);
      forall i, j :: 0 <= i < j < |r| && Preferred(r[j]) ==> Preferred(r[i])
    ensures Sequences.Partition(AudioOrder(audio), Preferred) == Sequences.Partition(audio, Preferred)
  {
    Sequences.StableByKeySorted(audio, Preferred);
    Sequences.StableByKeyStable(audio, Preferred);
  }

  /** The audio sets are removed and appended again in audio order; the other
      children keep their order in front. */
  function ReorderAudio(children: seq<Element>, ns: string): (r: seq<Element>)
    ensures |r| == |children|
    ensures multiset(r) == multiset(children)
  {
    var (audio, others) := Sequences.Partition(children, (c: Element) => IsAudioSet(c, ns));
    Sequences.StableByKeySorted(audio, Preferred);
    Sequences.PartitionMultiset(children, (c: Element) => IsAudioSet(c, ns));
    others + AudioOrder(audio)
  }

  /** The children that are not audio sets come first, in document order,
      and the audio sets follow in audio order. */
  lemma ReorderAudioParts(children: seq<Element>, ns: string)
    ensures var (audio, others) := Sequences.Partition(children, (c: Element) => IsAudioSet(c, ns));
      var r := ReorderAudio(children, ns);
      r[..|others|] == others && r[|others|..] == AudioOrder(audio)
  {
  }

  // The AdaptationSets of one Period

  datatype PeriodSets = PeriodSets(children: seq<Element>, counter: nat, pssh: seq<string>)

  /** A Period abandoned on `error`, with the segment counter the sets before the
      failing one had advanced to: the handler keeps that counter. */
  datatype Halt = Halt(error: MpdError, counter: nat)

  /** `ProcessSet` over the AdaptationSet children in document order. */
  function ProcessSets(children: seq<Element>, ns: string, ceiling: int, n: nat): (r: Result<PeriodSets, Halt>)
    ensures r.Err? ==> r.error.error.BadBandwidth? && r.error.counter >= n
    ensures r.Ok? ==> |r.value.children| == |children| && r.value.counter >= n
    ensures r.Ok? ==> forall i :: 0 <= i < |children| && children[i].tag != ns + "AdaptationSet" ==>
              r.value.children[i] == children[i]
    decreases |children|
  {
    if |children| == 0 then Ok(PeriodSets([], n, []))
    else
      var h := ProcessChild(children[0], ns, ceiling, n);
      if h.Err? then Err(Halt(h.error, n))
      else
        var head := h.value;
        var r := ProcessSets(children[1..], ns, ceiling, head.counter);
        if r.Err? then Err(r.error)
        else
          var rest := r.value;
          var cs := [head.adaptation] + rest.children;
          assert forall i :: 1 <= i < |children| ==> cs[i] == rest.children[i - 1] && children[i] == children[1..][i - 1];
          Ok(PeriodSets(cs, rest.counter, head.pssh + rest.pssh))
  }

  /** A Period abandoned at child `k` carries exactly the counter the children
      before it advanced to, and the error of child `k`. */
  lemma {:induction false} ProcessSetsStops(children: seq<Element>, ns: string, ceiling: int, n: nat, k: nat)
    requires k < |children| && ProcessSets(children[..k], ns, ceiling, n).Ok?
    requires ProcessChild(children[k], ns, ceiling, ProcessSets(children[..k], ns, ceiling, n).value.counter).Err?
    ensures var m := ProcessSets(children[..k], ns, ceiling, n).value.counter;
      ProcessSets(children, ns, ceiling, n) == Err(Halt(ProcessChild(children[k], ns, ceiling, m).error, m))
    decreases k
  {
    if k == 0 {
      assert children[..0] == [];
    } else {
      var prefix := children[..k];
      var head := ProcessChild(children[0], ns, ceiling, n).value;
      assert prefix[0] == children[0];
      assert prefix[1..] == children[1..][..k - 1];
      assert children[1..][k - 1] == children[k];
      ProcessSetsStops(children[1..], ns, ceiling, head.counter, k - 1);
    }
  }

  /** One child of a Period: an AdaptationSet is processed, anything else passes. */
  function ProcessChild(c: Element, ns: string, ceiling: int, n: nat): (r: Result<SetOutcome, MpdError>)
    ensures r.Err? ==> r.error.BadBandwidth?
    ensures r.Ok? ==> r.value.counter >= n
    ensures c.tag != ns + "AdaptationSet" ==> r == Ok(SetOutcome(c, n, []))
  {
    if c.tag == ns + "AdaptationSet" then ProcessSet(c, ns, ceiling, n) else Ok(SetOutcome(c, n, []))
  }

  // pssh without duplicates

  /** `list(set(pssh))`, keeping the first of equal entries. */
  function Dedupe(s: seq<string>): (r: seq<string>)
    ensures forall i, j :: 0 <= i < j < |r| ==> r[i] != r[j]
    ensures forall x :: x in r <==> x in s
    decreases |s|
  {
    if |s| == 0 then []
    else
      var rest := Dedupe(s[..|s| - 1]);
      if s[|s| - 1] in rest then rest else rest + [s[|s| - 1]]
  }

  // Base address

  /** Where the Period's base address is written: a Period BaseURL counts
      only when it has child elements (the truth value of an ElementTree
      element), so a plain one gives way to the root's; with neither, a new
      BaseURL is appended to the root. */
  datatype BaseTarget = InPeriod(k: nat) | AtRoot(k: nat) | Append

  function Target(period: Element, root: seq<Element>, ns: string): (r: BaseTarget)
    ensures r.InPeriod? ==> FirstIndex(period.children, ns + "BaseURL") == Some(r.k) &&
                            |period.children[r.k].children| > 0
    ensures r.AtRoot? ==> FirstIndex(root, ns + "BaseURL") == Some(r.k)
    ensures r.Append? <==> (FirstIndex(root, ns + "BaseURL").None? &&
                            !(FirstIndex(period.children, ns + "BaseURL").Some? &&
                              |period.children[FirstIndex(period.children, ns + "BaseURL").value].children| > 0))
  {
    var pb := FirstIndex(period.children, ns + "BaseURL");
    if pb.Some? && |period.children[pb.value].children| > 0 then InPeriod(pb.value)
    else
      match FirstIndex(root, ns + "BaseURL")
      case Some(k) => AtRoot(k)
      case None => Append
  }

  /** The address the segments are fetched from, behind the proxy when the
      handler proxies segments. */
  function Proxied<R>(env: Env<R>, cache: Cache<R>, url: string, pssh: seq<string>): (r: (string, Cache<R>))
    ensures !env.proxySegments ==> r == (url, cache)
    ensures env.proxySegments ==>
              r == DashRouting.Proxify(env.alphabet, env.md5, env.name, cache, url, Dedupe(pssh), env.drm, env.now)
    ensures DashCache.KeepsLive(cache, r.1, env.now)
  {
    if env.proxySegments then DashRouting.Proxify(env.alphabet, env.md5, env.name, cache, url, Dedupe(pssh), env.drm, env.now)
    else (url, cache)
  }

  function WithText(children: seq<Element>, k: nat, text: string): (r: seq<Element>)
    requires k < |children|
    ensures |r| == |children| && r[k] == children[k].(text := Some(text))
    ensures forall j :: 0 <= j < |children| && j != k ==> r[j] == children[j]
  {
    children[k := children[k].(text := Some(text))]
  }

  /** The root's own children (positions fixed while the Periods are
      processed) and the BaseURL elements appended after them. The appended
      tag carries no namespace, so later lookups of `ns + "BaseURL"` never
      see it. */
  datatype Doc<R> = Doc(children: seq<Element>, appended: seq<Element>, cache: Cache<R>, counter: nat)

  /** The AdaptationSets of a Period processed and its audio reordered. */
  function ProcessPeriod(p: Element, ns: string, ceiling: int, n: nat): (r: Result<PeriodSets, Halt>)
    ensures r.Err? ==> r.error.error.BadBandwidth? && r.error.counter >= n
    ensures r.Ok? ==> r.value.counter >= n
  {
    var sets :- ProcessSets(p.children, ns, ceiling, n);
    Ok(sets.(children := ReorderAudio(sets.children, ns)))
  }

  /** The base address step for the processed Period `period` at position `i`
      whose sets yielded `pssh`: the target BaseURL gets the joined (and
      proxied) address, or a new BaseURL carries the (proxied) document base. */
  function PlaceBase<R>(env: Env<R>, ns: string, base: string, doc: Doc<R>, i: nat, period: Element, pssh: seq<string>)
    : (r: Doc<R>)
    requires i < |doc.children| && doc.children[i].tag == ns + "Period" && period.tag == ns + "Period"
    ensures |r.children| == |doc.children| && r.counter == doc.counter && r.children[i].tag == ns + "Period"
    ensures forall j :: 0 <= j < |doc.children| && j != i && doc.children[j].tag != ns + "BaseURL" ==>
              r.children[j] == doc.children[j]
    ensures |doc.appended| <= |r.appended| <= |doc.appended| + 1 && r.appended[..|doc.appended|] == doc.appended
    ensures DashCache.KeepsLive(doc.cache, r.cache, env.now)
  {
    match Target(period, doc.children, ns)
    case InPeriod(k) =>
      var (url, c) := Proxied(env, doc.cache, env.urljoin(base, period.children[k].text.GetOr("")), pssh);
      doc.(children := doc.children[i := period.(children := WithText(period.children, k, url))], cache := c)
    case AtRoot(k) =>
      var (url, c) := Proxied(env, doc.cache, env.urljoin(base, doc.children[k].text.GetOr("")), pssh);
      doc.(children := WithText(doc.children[i := period], k, url), cache := c)
    case Append =>
      var (url, c) := Proxied(env, doc.cache, base, pssh);
      assert (doc.appended + [Element("BaseURL", map[], Some(url), [])])[..|doc.appended|] == doc.appended;
      doc.(children := doc.children[i := period], appended := doc.appended + [Element("BaseURL", map[], Some(url), [])], cache := c)
  }

  /** A manifest abandoned on `error`, with the route cache and the segment counter
      the handler has reached by then and keeps. */
  datatype Stopped<R> = Stopped(error: MpdError, cache: Cache<R>, counter: nat)

  /** Process the Period at position `i` of the root. A Period abandoned on a bad
      bandwidth stores no route: its base address step is never reached. */
  function PeriodStep<R>(env: Env<R>, ns: string, ceiling: int, base: string, doc: Doc<R>, i: nat)
    : (r: Result<Doc<R>, Stopped<R>>)
    requires i < |doc.children| && doc.children[i].tag == ns + "Period"
    ensures r.Err? ==> r.error.error.BadBandwidth? && r.error.cache == doc.cache && r.error.counter >= doc.counter
    ensures r.Ok? ==> |r.value.children| == |doc.children| && r.value.counter >= doc.counter
    ensures r.Ok? ==> forall j :: 0 <= j < |doc.children| && j != i && doc.children[j].tag != ns + "BaseURL" ==>
              r.value.children[j] == doc.children[j]
    ensures r.Ok? ==> DashCache.KeepsLive(doc.cache, r.value.cache, env.now)
  {
    var p := doc.children[i];
    match ProcessPeriod(p, ns, ceiling, doc.counter)
    case Err(h) => Err(Stopped(h.error, doc.cache, h.counter))
    case Ok(sets) =>
      Ok(PlaceBase(env, ns, base, doc.(counter := sets.counter), i, p.(children := sets.children), sets.pssh))
  }

  /** A Period whose BaseURL has no child elements (or that has none) writes
      the root's BaseURL, joined with the text it had so far: with several
      Periods each one rewrites the same root element in turn. */
  lemma RootBaseRewritten<R>(env: Env<R>, ns: string, base: string, doc: Doc<R>, i: nat, period: Element, pssh: seq<string>, k: nat)
    requires i < |doc.children| && doc.children[i].tag == ns + "Period" && period.tag == ns + "Period"
    requires FirstIndex(doc.children, ns + "BaseURL") == Some(k)
    requires forall j :: 0 <= j < |period.children| && period.children[j].tag == ns + "BaseURL" ==>
               |period.children[j].children| == 0
    ensures var r := PlaceBase(env, ns, base, doc, i, period, pssh);
      var (url, c) := Proxied(env, doc.cache, env.urljoin(base, doc.children[k].text.GetOr("")), pssh);
      && r.children[k] == doc.children[k].(text := Some(url))
      && r.children[i] == period
      && r.appended == doc.appended
      && r.cache == c
  {
    assert Target(period, doc.children, ns) == AtRoot(k);
  }

  /** With no BaseURL to write, a new one carrying the document base (behind
      the proxy when proxying) is appended to the root. */
  lemma BaseAppended<R>(env: Env<R>, ns: string, base: string, doc: Doc<R>, i: nat, period: Element, pssh: seq<string>)
    requires i < |doc.children| && doc.children[i].tag == ns + "Period" && period.tag == ns + "Period"
    requires NoneTagged(doc.children, ns + "BaseURL") && NoneTagged(period.children, ns + "BaseURL")
    ensures var r := PlaceBase(env, ns, base, doc, i, period, pssh);
      var (url, c) := Proxied(env, doc.cache, base, pssh);
      && r.appended == doc.appended + [Element("BaseURL", map[], Some(url), [])]
      && r.children == doc.children[i := period]
      && r.cache == c
      && (!env.proxySegments ==> url == base)
  {
    assert Target(period, doc.children, ns) == Append;
  }

  /** Without DRM pssh the address itself travels in the path, encoded with
      the handler's alphabet, and the cache is left alone. */
  lemma ClearRouteProxied<R>(env: Env<R>, cache: Cache<R>, url: string, pssh: seq<string>)
    requires env.proxySegments && |pssh| == 0
    ensures Proxied(env, cache, url, pssh)
      == ("/" + env.name + DashRouting.DsDir + DashRouting.ProxyKey(env.alphabet, url) + "/", cache)
  {
    assert |Dedupe(pssh)| == 0;
  }

  /** As written, the handler proxies the base address `tv?` to the key `dHY/`,
      whose `/` the `P_ds` route then splits off, so a segment under it
      cannot be served. */
  lemma ClearRouteAsWritten<R>(env: Env<R>, cache: Cache<R>)
    requires env.proxySegments && env.alphabet == Base64.Standard
    ensures Proxied(env, cache, "tv?", []).0 == "/" + env.name + "/ds/dHY//"
    ensures DashRouting.PdsUrl(Base64.Standard, DashRouting.ProxyKey(env.alphabet, "tv?") + "/seg.m4s")
      == Err(DashRouting.BadBase64)
  {
    ClearRouteProxied(env, cache, "tv?", []);
    assert DashRouting.ProxyKey(Base64.Standard, "tv?") == "dHY/";
    DashRouting.ShortQueryBreaks();
  }

  /** Proxying with DRM pssh stores the route, with the pssh once each, under
      the digest of the address the BaseURL now names. */
  lemma DrmRouteStored<R>(env: Env<R>, cache: Cache<R>, url: string, pssh: seq<string>)
    requires env.proxySegments && |pssh| > 0
    ensures var (path, c) := Proxied(env, cache, url, pssh);
      && path == "/" + env.name + DashRouting.DspDir + env.md5(url) + "/"
      && env.md5(url) in c
      && c[env.md5(url)].data.pssh == Dedupe(pssh)
      && (forall x :: x in c[env.md5(url)].data.pssh <==> x in pssh)
  {
    assert pssh[0] in Dedupe(pssh);
  }

  /** Process the Periods at positions `i` and after, in document order. */
  function Walk<R>(env: Env<R>, ns: string, ceiling: int, base: string, doc: Doc<R>, i: nat)
    : (r: Result<Doc<R>, Stopped<R>>)
    requires i <= |doc.children|
    ensures r.Err? ==> r.error.error.BadBandwidth? && r.error.counter >= doc.counter
    ensures r.Err? ==> DashCache.KeepsLive(doc.cache, r.error.cache, env.now)
    ensures r.Ok? ==> |r.value.children| == |doc.children| && r.value.counter >= doc.counter
    ensures r.Ok? ==> DashCache.KeepsLive(doc.cache, r.value.cache, env.now)
    ensures r.Ok? ==> forall j :: (0 <= j < |doc.children| && doc.children[j].tag != ns + "Period" &&
                                   doc.children[j].tag != ns + "BaseURL") ==> r.value.children[j] == doc.children[j]
    decreases |doc.children| - i
  {
    if i == |doc.children| then Ok(doc)
    else if doc.children[i].tag == ns + "Period" then
      var d :- PeriodStep(env, ns, ceiling, base, doc, i);
      Walk(env, ns, ceiling, base, d, i + 1)
    else Walk(env, ns, ceiling, base, doc, i + 1)
  }

  /** Children that are not Periods are walked past unchanged. */
  lemma {:induction false} WalkNoPeriods<R>(env: Env<R>, ns: string, ceiling: int, base: string, doc: Doc<R>, i: nat)
    requires i <= |doc.children|
    requires forall j :: i <= j < |doc.children| ==> doc.children[j].tag != ns + "Period"
    ensures Walk(env, ns, ceiling, base, doc, i) == Ok(doc)
    decreases |doc.children| - i
  {
    if i < |doc.children| {
      WalkNoPeriods(env, ns, ceiling, base, doc, i + 1);
    }
  }

  datatype Handled<R> = Handled(root: Element, cache: Cache<R>, counter: nat)

  /** `handle_mpd_manifest(base, root, ceiling, drm)` with the handler's
      segment counter `counter` and route cache `cache`. When it raises, the
      error carries the counter and cache the handler keeps: the numbering
      and the routes of the Periods before the failing one stay. */
  function Handle<R>(env: Env<R>, ceiling: int, cache: Cache<R>, counter: nat, base: string, root: Element)
    : (r: Result<Handled<R>, Stopped<R>>)
    ensures Namespace(root.tag).None? <==> r == Err(Stopped(NoNamespace, cache, counter))
    ensures r.Err? ==> r.error.counter >= counter && DashCache.KeepsLive(cache, r.error.cache, env.now)
    ensures r.Err? && Namespace(root.tag).Some? ==> r.error.error.BadBandwidth?
    ensures r.Ok? ==> r.value.root.tag == root.tag && r.value.root.attrs == root.attrs && r.value.counter >= counter
    ensures r.Ok? ==> |r.value.root.children| >= |root.children|
    ensures r.Ok? ==> DashCache.KeepsLive(cache, r.value.cache, env.now)
  {
    match Namespace(root.tag)
    case None => Err(Stopped(NoNamespace, cache, counter))
    case Some(n) =>
      match Walk(env, "{" + n + "}", ceiling, base, Doc(root.children, [], cache, counter), 0)
      case Err(e) => Err(e)
      case Ok(doc) => Ok(Handled(root.(children := doc.children + doc.appended), doc.cache, doc.counter))
  }

  /** A manifest without Periods comes back as it was, and the handler's counter
      and cache are untouched. */
  lemma HandleNoPeriods<R>(env: Env<R>, ceiling: int, cache: Cache<R>, counter: nat, base: string, root: Element)
    requires Namespace(root.tag).Some?
    requires forall j :: 0 <= j < |root.children| ==>
               root.children[j].tag != "{" + Namespace(root.tag).value + "}Period"
    ensures Handle(env, ceiling, cache, counter, base, root) == Ok(Handled(root, cache, counter))
  {
    var ns := "{" + Namespace(root.tag).value + "}";
    WalkNoPeriods(env, ns, ceiling, base, Doc(root.children, [], cache, counter), 0);
    assert root.children + [] == root.children;
  }
}
