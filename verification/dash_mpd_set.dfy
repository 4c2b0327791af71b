/** What the manifest rewriter does to one AdaptationSet: a video set keeps
    the single Representation the bandwidth ceiling selects, DRM signalling
    (ISO/IEC 23009-1 section 5.8.4.1 ContentProtection, with the
    `cenc:default_KID` and `cenc:pssh` of ISO/IEC 23001-7) is collected, and
    a protected set has its SegmentTemplates (ISO/IEC 23009-1 section
    5.3.9.4) numbered for the decrypting proxy and its ContentProtection
    elements removed. */
module MpdAdaptation {
  import opened Wrappers
  import opened Text
  import Sequences
  import opened MpdTree
  import DashRouting
  import Base64
  import DashCache

  const Mp4Protection := "urn:mpeg:dash:mp4protection:2011"
  const WidevineScheme := "urn:uuid:edef8ba9-79d6-4ace-a3c8-27dcd51d21ed"
  const CencNs := "{urn:mpeg:cenc:2013}"

  /** The exceptions the rewriter can raise: the root tag has no namespace
      (`str.index` fails), or a bandwidth is not an integer (`int` fails). */
  datatype MpdError = NoNamespace | BadBandwidth(text: string)

  /** Python truthiness of an optional string. */
  predicate Truthy(v: Option<string>) {
    v.Some? && |v.value| > 0
  }

  // DRM signalling

  /** `./{ns}ContentProtection[@schemeIdUri="scheme"]`, every match. */
  function Protections(e: Element, ns: string, scheme: string): (r: seq<Element>)
    ensures forall i :: 0 <= i < |r| ==> r[i] in e.children
    ensures forall i :: 0 <= i < |r| ==> r[i].tag == ns + "ContentProtection" && Attr(r[i], "schemeIdUri") == Some(scheme)
  {
    Sequences.Filter(e.children, (c: Element) => c.tag == ns + "ContentProtection" && Attr(c, "schemeIdUri") == Some(scheme))
  }

  /** The key id of a ContentProtection element: the namespaced attribute
      when it is non-empty, else the plain one; `None` when that is empty. */
  function KidOf(cp: Element): (r: Option<string>)
    ensures r.Some? <==> Truthy(Attr(cp, CencNs + "default_KID")) || Truthy(Attr(cp, "default_KID"))
    ensures Truthy(Attr(cp, CencNs + "default_KID")) ==> r == Attr(cp, CencNs + "default_KID")
  {
    var first := Attr(cp, CencNs + "default_KID");
    var kid := if Truthy(first) then first else Attr(cp, "default_KID");
    if Truthy(kid) then kid else None
  }

  /** The key id found through the first mp4protection element, if any. */
  function Kid(e: Element, ns: string): Option<string> {
    var ps := Protections(e, ns, Mp4Protection);
    if |ps| == 0 then None else KidOf(ps[0])
  }

  /** The `cenc:pssh` children of the given elements, in document order. */
  function PsshChildren(cps: seq<Element>): seq<Element>
    decreases |cps|
  {
    if |cps| == 0 then [] else Tagged(cps[0].children, CencNs + "pssh") + PsshChildren(cps[1..])
  }

  /** The stripped text of the first pssh under a Widevine ContentProtection,
      when that first one has text. */
  function Pssh(e: Element, ns: string): (r: Option<string>)
    ensures r.Some? ==> Stripped(r.value)
  {
    var ps := PsshChildren(Protections(e, ns, WidevineScheme));
    if |ps| > 0 && Truthy(ps[0].text) then Some(Strip(ps[0].text.value)) else None
  }

  /** `search_drm_data`: whether DRM signalling was found, and the pssh it adds. */
  datatype Drm = Drm(found: bool, pssh: seq<string>)

  function SearchDrm(e: Element, ns: string): (r: Drm)
    ensures r.found <==> Kid(e, ns).Some? || Pssh(e, ns).Some?
    ensures Pssh(e, ns).Some? ==> r.pssh == [Pssh(e, ns).value]
    ensures Pssh(e, ns).None? ==> r.pssh == []
  {
    var p := Pssh(e, ns);
    Drm(Kid(e, ns).Some? || p.Some?, if p.Some? then [p.value] else [])
  }

  /** The searches over several elements, the pssh in document order. */
  function SearchEach(es: seq<Element>, ns: string): (r: Drm)
    ensures r.found <==> exists i :: 0 <= i < |es| && SearchDrm(es[i], ns).found
    ensures r.pssh != [] ==> r.found
    decreases |es|
  {
    if |es| == 0 then Drm(false, [])
    else
      var d := SearchDrm(es[0], ns);
      var rest := SearchEach(es[1..], ns);
      FoundCons(es, ns);
      Drm(d.found || rest.found, d.pssh + rest.pssh)
  }

  lemma FoundCons(es: seq<Element>, ns: string)
    requires |es| > 0
    ensures (exists i :: 0 <= i < |es| && SearchDrm(es[i], ns).found) <==>
      SearchDrm(es[0], ns).found || exists i :: 0 <= i < |es[1..]| && SearchDrm(es[1..][i], ns).found
  {
    var tail := es[1..];
    if exists i :: 0 <= i < |tail| && SearchDrm(tail[i], ns).found {
      var i :| 0 <= i < |tail| && SearchDrm(tail[i], ns).found;
      assert es[i + 1] == tail[i];
    }
    if exists i :: 0 <= i < |es| && SearchDrm(es[i], ns).found {
      var i :| 0 <= i < |es| && SearchDrm(es[i], ns).found;
      if i > 0 {
        assert tail[i - 1] == es[i];
      }
    }
  }

  // Video selection

  predicate IsVideo(a: Element) {
    AttrOr(a, "contentType", "") == "video" || StartsWith(AttrOr(a, "mimeType", ""), "video/")
  }

  predicate IsAudio(a: Element) {
    AttrOr(a, "contentType", "") == "audio" || StartsWith(AttrOr(a, "mimeType", ""), "audio/")
  }

  /** `int(x.get('bandwidth', 0))`; `None` where `int` raises. */
  function Bandwidth(rep: Element): Option<int> {
    if "bandwidth" in rep.attrs then ParseInt(rep.attrs["bandwidth"]) else Some(0)
  }

  /** The sort key: a bandwidth within the ceiling counts as itself, one above
      it as its negation, so a descending sort puts the best fitting first. */
  function SortKey(bandwidth: int, ceiling: int): int {
    if bandwidth <= ceiling then bandwidth else -bandwidth
  }

  /** The keys of the Representations, or the first bandwidth `int` rejects. */
  function Keys(reps: seq<Element>, ceiling: int): (r: Result<seq<int>, MpdError>)
    ensures r.Err? ==> r.error.BadBandwidth?
    ensures r.Ok? <==> forall i :: 0 <= i < |reps| ==> Bandwidth(reps[i]).Some?
    ensures r.Ok? ==> |r.value| == |reps|
    ensures r.Ok? ==> forall i :: 0 <= i < |reps| ==> r.value[i] == SortKey(Bandwidth(reps[i]).value, ceiling)
    decreases |reps|
  {
    if |reps| == 0 then Ok([])
    else
      var b := Bandwidth(reps[0]);
      assert forall i :: 1 <= i < |reps| ==> reps[i] == reps[1..][i - 1];
      if b.None? then Err(BadBandwidth(AttrOr(reps[0], "bandwidth", "")))
      else
        var rest :- Keys(reps[1..], ceiling);
        Ok([SortKey(b.value, ceiling)] + rest)
  }

  /** Keep the children without `tag` and only the `k`-th child with it
      (none when `k` is out of range). */
  function KeepNth(children: seq<Element>, tag: string, k: int): seq<Element>
    decreases |children|
  {
    if |children| == 0 then []
    else if children[0].tag != tag then [children[0]] + KeepNth(children[1..], tag, k)
    else if k == 0 then [children[0]] + KeepNth(children[1..], tag, -1)
    else KeepNth(children[1..], tag, k - 1)
  }

  /** Keeping the `k`-th leaves the other children alone. */
  lemma {:induction false} KeepNthUntagged(children: seq<Element>, tag: string, k: int)
    ensures Untagged(KeepNth(children, tag, k), tag) == Untagged(children, tag)
    decreases |children|
  {
    if |children| > 0 {
      var c := children[0];
      var rest := children[1..];
      var k' := if c.tag != tag then k else if k == 0 then -1 else k - 1;
      var kept := KeepNth(rest, tag, k');
      KeepNthUntagged(rest, tag, k');
      assert children == [c] + rest;
      TaggedCons(c, rest, tag);
      if c.tag != tag || k == 0 {
        assert KeepNth(children, tag, k) == [c] + kept;
        TaggedCons(c, kept, tag);
      } else {
        assert KeepNth(children, tag, k) == kept;
      }
    }
  }

  /** The one-element list of `s[k]`, or the empty list when there is no `s[k]`. */
  function NthOrNone(s: seq<Element>, k: int): seq<Element> {
    if 0 <= k < |s| then [s[k]] else []
  }

  /** Keeping the `k`-th reduces the tagged children to the `k`-th, or to none when
      there is no `k`-th. */
  lemma {:induction false} KeepNthTagged(children: seq<Element>, tag: string, k: int)
    ensures Tagged(KeepNth(children, tag, k), tag) == NthOrNone(Tagged(children, tag), k)
    decreases |children|
  {
    if |children| > 0 {
      var c := children[0];
      var rest := children[1..];
      assert children == [c] + rest;
      if c.tag != tag {
        KeepNthTagged(rest, tag, k);
        KeepOther(c, rest, tag, k);
      } else if k == 0 {
        KeepNthTagged(rest, tag, -1);
        KeepFirst(c, rest, tag);
      } else {
        KeepNthTagged(rest, tag, k - 1);
        KeepLater(c, rest, tag, k);
      }
    }
  }

  lemma KeepOther(c: Element, rest: seq<Element>, tag: string, k: int)
    requires c.tag != tag
    requires Tagged(KeepNth(rest, tag, k), tag) == NthOrNone(Tagged(rest, tag), k)
    ensures Tagged(KeepNth([c] + rest, tag, k), tag) == NthOrNone(Tagged([c] + rest, tag), k)
  {
    var kept := KeepNth(rest, tag, k);
    assert ([c] + rest)[0] == c && ([c] + rest)[1..] == rest;
    assert KeepNth([c] + rest, tag, k) == [c] + kept;
    TaggedCons(c, kept, tag);
    TaggedCons(c, rest, tag);
  }

  lemma KeepFirst(c: Element, rest: seq<Element>, tag: string)
    requires c.tag == tag
    requires Tagged(KeepNth(rest, tag, -1), tag) == NthOrNone(Tagged(rest, tag), -1)
    ensures Tagged(KeepNth([c] + rest, tag, 0), tag) == NthOrNone(Tagged([c] + rest, tag), 0)
  {
    var kept := KeepNth(rest, tag, -1);
    assert ([c] + rest)[0] == c && ([c] + rest)[1..] == rest;
    assert KeepNth([c] + rest, tag, 0) == [c] + kept;
    TaggedCons(c, kept, tag);
    TaggedCons(c, rest, tag);
  }

  lemma KeepLater(c: Element, rest: seq<Element>, tag: string, k: int)
    requires c.tag == tag && k != 0
    requires Tagged(KeepNth(rest, tag, k - 1), tag) == NthOrNone(Tagged(rest, tag), k - 1)
    ensures Tagged(KeepNth([c] + rest, tag, k), tag) == NthOrNone(Tagged([c] + rest, tag), k)
  {
    assert ([c] + rest)[0] == c && ([c] + rest)[1..] == rest;
    assert KeepNth([c] + rest, tag, k) == KeepNth(rest, tag, k - 1);
    TaggedCons(c, rest, tag);
    var tc, tr := Tagged([c] + rest, tag), Tagged(rest, tag);
    assert tc == [c] + tr;
    assert 1 <= k < |tc| ==> tc[k] == tr[k - 1];
  }

  /** A video set keeps only the Representation a stable descending sort on
      `SortKey` puts first; nothing else about the set changes. */
  function PruneVideo(a: Element, ns: string, ceiling: int): (r: Result<Element, MpdError>)
    ensures r.Err? ==> r.error.BadBandwidth?
    ensures r.Err? <==> Keys(Tagged(a.children, ns + "Representation"), ceiling).Err?
    ensures r.Ok? ==> r.value.tag == a.tag && r.value.attrs == a.attrs && r.value.text == a.text
    ensures r.Ok? ==> Untagged(r.value.children, ns + "Representation") == Untagged(a.children, ns + "Representation")
    ensures r.Ok? && |Tagged(a.children, ns + "Representation")| > 0 ==>
              var reps := Tagged(a.children, ns + "Representation");
              Tagged(r.value.children, ns + "Representation")
                == [reps[Sequences.FirstArgMax(Keys(reps, ceiling).value)]]
    ensures r.Ok? && |Tagged(a.children, ns + "Representation")| == 0 ==> r.value == a
  {
    var tag := ns + "Representation";
    var keys :- Keys(Tagged(a.children, tag), ceiling);
    if |keys| == 0 then Ok(a)
    else
      KeepNthUntagged(a.children, tag, Sequences.FirstArgMax(keys));
      KeepNthTagged(a.children, tag, Sequences.FirstArgMax(keys));
      Ok(a.(children := KeepNth(a.children, tag, Sequences.FirstArgMax(keys))))
  }

  /** What the key order selects, in terms of bandwidths: the largest one
      within the ceiling, the earliest of equals; when none fits, the
      smallest, again the earliest. Bandwidths are non-negative, as the
      `xs:unsignedInt` type of ISO/IEC 23009-1 demands. */
  lemma ChosenBandwidth(bws: seq<int>, ceiling: int)
    requires |bws| > 0
    requires forall i :: 0 <= i < |bws| ==> bws[i] >= 0
    ensures var k := Sequences.FirstArgMax(seq(|bws|, i requires 0 <= i < |bws| => SortKey(bws[i], ceiling)));
      && ((exists i :: 0 <= i < |bws| && bws[i] <= ceiling) ==>
            && bws[k] <= ceiling
            && (forall j :: 0 <= j < |bws| && bws[j] <= ceiling ==> bws[j] <= bws[k])
            && (forall j :: 0 <= j < k && bws[j] <= ceiling ==> bws[j] < bws[k]))
      && ((forall i :: 0 <= i < |bws| ==> bws[i] > ceiling) ==>
            && (forall j :: 0 <= j < |bws| ==> bws[k] <= bws[j])
            && (forall j :: 0 <= j < k ==> bws[k] < bws[j]))
  {
    var keys := seq(|bws|, i requires 0 <= i < |bws| => SortKey(bws[i], ceiling));
    var k := Sequences.FirstArgMax(keys);
    if exists i :: 0 <= i < |bws| && bws[i] <= ceiling {
      var i :| 0 <= i < |bws| && bws[i] <= ceiling;
      assert keys[i] == bws[i] >= 0;
      assert keys[k] >= keys[i];
      assert bws[k] <= ceiling;
      assert keys[k] == bws[k];
      forall j | 0 <= j < |bws| && bws[j] <= ceiling
        ensures bws[j] <= bws[k]
      {
        assert keys[j] == bws[j];
      }
      forall j | 0 <= j < k && bws[j] <= ceiling
        ensures bws[j] < bws[k]
      {
        assert keys[j] == bws[j];
      }
    } else {
      forall j | 0 <= j < |bws|
        ensures keys[j] == -bws[j]
      {
      }
    }
  }

  // Numbering of segment templates

  /** `i<n>/` or `m<n>/`. */
  function SegmentPrefix(kind: char, n: nat): string {
    [kind] + NatToString(n) + "/"
  }

  /** One SegmentTemplate as `path_segment_url` leaves it. */
  function RewriteTemplate(t: Element, n: nat): Element {
    var init := AttrOr(t, "initialization", "");
    var media := AttrOr(t, "media", "");
    var a1 := if |init| > 0 then t.attrs["initialization" := SegmentPrefix('i', n) + DashRouting.Escape(init)] else t.attrs;
    var a2 := if |media| > 0 then a1["media" := SegmentPrefix('m', n) + DashRouting.Escape(media)] else a1;
    t.(attrs := a2)
  }

  /** A non-empty `initialization` gets the `i<n>/` prefix, a non-empty
      `media` the `m<n>/` prefix, both with `../` escaped; nothing else of the
      template changes. */
  lemma RewriteTemplateAttrs(t: Element, n: nat)
    ensures var r := RewriteTemplate(t, n);
      && r.tag == t.tag && r.text == t.text && r.children == t.children
      && (Truthy(Attr(t, "initialization")) ==>
            Attr(r, "initialization") == Some(SegmentPrefix('i', n) + DashRouting.Escape(t.attrs["initialization"])))
      && (!Truthy(Attr(t, "initialization")) ==> Attr(r, "initialization") == Attr(t, "initialization"))
      && (Truthy(Attr(t, "media")) ==> Attr(r, "media") == Some(SegmentPrefix('m', n) + DashRouting.Escape(t.attrs["media"])))
      && (!Truthy(Attr(t, "media")) ==> Attr(r, "media") == Attr(t, "media"))
      && (forall name :: name != "initialization" && name != "media" ==> Attr(r, name) == Attr(t, name))
  {
  }

  /** Templates `ts` rewritten with the numbers `n`, `n + 1`, ... */
  function Numbered(ts: seq<Element>, n: nat): (r: seq<Element>)
    ensures |r| == |ts|
    ensures forall j :: 0 <= j < |ts| ==> r[j] == RewriteTemplate(ts[j], n + j)
    decreases |ts|
  {
    if |ts| == 0 then []
    else
      var rest := Numbered(ts[1..], n + 1);
      var r := [RewriteTemplate(ts[0], n)] + rest;
      assert forall j :: 0 < j < |ts| ==> r[j] == rest[j - 1] && ts[1..][j - 1] == ts[j];
      r
  }

  const SegmentTemplateTag := "SegmentTemplate"

  /** The SegmentTemplate children rewritten in document order, one number
      each, starting from the handler's counter `n`; the new counter. */
  function RewriteTemplates(children: seq<Element>, tag: string, n: nat): (r: (seq<Element>, nat))
    ensures |r.0| == |children|
    ensures r.1 == n + |Tagged(children, tag)|
    decreases |children|
  {
    if |children| == 0 then ([], n)
    else
      var c := children[0];
      var rest := children[1..];
      assert children == [c] + rest;
      TaggedCons(c, rest, tag);
      if c.tag == tag then
        var (rs, m) := RewriteTemplates(rest, tag, n + 1);
        ([RewriteTemplate(c, n)] + rs, m)
      else
        var (rs, m) := RewriteTemplates(rest, tag, n);
        ([c] + rs, m)
  }

  /** Rewriting leaves every other child as it was and numbers the templates
      `n`, `n + 1`, ... in document order. */
  lemma {:induction false} RewriteTemplatesNumbers(children: seq<Element>, tag: string, n: nat)
    ensures var r := RewriteTemplates(children, tag, n).0;
      && Untagged(r, tag) == Untagged(children, tag)
      && Tagged(r, tag) == Numbered(Tagged(children, tag), n)
    decreases |children|
  {
    if |children| > 0 {
      var c := children[0];
      var rest := children[1..];
      assert children == [c] + rest;
      TaggedCons(c, rest, tag);
      if c.tag == tag {
        var rs := RewriteTemplates(rest, tag, n + 1).0;
        RewriteTemplatesNumbers(rest, tag, n + 1);
        TaggedCons(RewriteTemplate(c, n), rs, tag);
        assert ([c] + Tagged(rest, tag))[1..] == Tagged(rest, tag);
      } else {
        var rs := RewriteTemplates(rest, tag, n).0;
        RewriteTemplatesNumbers(rest, tag, n);
        TaggedCons(c, rs, tag);
      }
    }
  }

  /** One element of a protected set: its templates numbered and its
      ContentProtection children removed. */
  function Protect(e: Element, ns: string, n: nat): (r: (Element, nat))
    ensures r.0.tag == e.tag && r.0.attrs == e.attrs && r.0.text == e.text
    ensures NoneTagged(r.0.children, ns + "ContentProtection")
    ensures r.1 == n + |Tagged(e.children, ns + SegmentTemplateTag)|
    ensures Tagged(r.0.children, ns + SegmentTemplateTag) == Numbered(Tagged(e.children, ns + SegmentTemplateTag), n)
  {
    var (cs, m) := RewriteTemplates(e.children, ns + SegmentTemplateTag, n);
    RewriteTemplatesNumbers(e.children, ns + SegmentTemplateTag, n);
    var kept := Untagged(cs, ns + "ContentProtection");
    assert Tagged(kept, ns + SegmentTemplateTag) == Tagged(cs, ns + SegmentTemplateTag) by {
      KeepOtherTags(cs, ns + "ContentProtection", ns + SegmentTemplateTag);
    }
    (e.(children := kept), m)
  }

  /** Removing the children of one tag leaves those of another tag alone. */
  lemma {:induction false} KeepOtherTags(cs: seq<Element>, dropped: string, tag: string)
    requires dropped != tag
    ensures Tagged(Untagged(cs, dropped), tag) == Tagged(cs, tag)
    decreases |cs|
  {
    if |cs| > 0 {
      var c, rest := cs[0], cs[1..];
      assert cs == [c] + rest;
      TaggedCons(c, rest, dropped);
      TaggedCons(c, rest, tag);
      KeepOtherTags(rest, dropped, tag);
      if c.tag != dropped {
        TaggedCons(c, Untagged(rest, dropped), tag);
        assert Untagged(cs, dropped) == [c] + Untagged(rest, dropped);
      } else {
        assert Untagged(cs, dropped) == Untagged(rest, dropped);
        assert Tagged(cs, tag) == Tagged(rest, tag);
      }
    }
  }

  /** A Representation with no ContentProtection child. */
  predicate Unprotected(children: seq<Element>, ns: string) {
    forall i :: 0 <= i < |children| && children[i].tag == ns + "Representation" ==>
      NoneTagged(children[i].children, ns + "ContentProtection")
  }

  /** `Protect` applied to each Representation child in document order, the
      counter threaded through. */
  function ProtectEach(children: seq<Element>, ns: string, n: nat): (r: (seq<Element>, nat))
    ensures |r.0| == |children| && r.1 >= n
    ensures forall i :: 0 <= i < |children| ==> r.0[i].tag == children[i].tag && r.0[i].attrs == children[i].attrs
    ensures forall i :: 0 <= i < |children| && children[i].tag != ns + "Representation" ==> r.0[i] == children[i]
    ensures Unprotected(r.0, ns)
    decreases |children|
  {
    if |children| == 0 then ([], n)
    else
      var h := ProtectChild(children[0], ns, n);
      var t := ProtectEach(children[1..], ns, h.1);
      var r := [h.0] + t.0;
      assert r[0] == h.0 && children[0].tag == h.0.tag;
      assert forall i :: 1 <= i < |children| ==> r[i] == t.0[i - 1] && children[i] == children[1..][i - 1];
      (r, t.1)
  }

  /** One child of a set: a Representation is protected, anything else passes. */
  function ProtectChild(c: Element, ns: string, n: nat): (r: (Element, nat))
    ensures r.0.tag == c.tag && r.0.attrs == c.attrs && r.1 >= n
    ensures c.tag == ns + "Representation" ==> NoneTagged(r.0.children, ns + "ContentProtection")
    ensures c.tag != ns + "Representation" ==> r == (c, n)
  {
    if c.tag == ns + "Representation" then Protect(c, ns, n) else (c, n)
  }

  /** A protected set: its own templates numbered first, then those of each
      Representation; no ContentProtection is left at either level. */
  function ProtectSet(a: Element, ns: string, n: nat): (r: (Element, nat))
    ensures r.0.tag == a.tag && r.0.attrs == a.attrs && r.1 >= n
    ensures NoneTagged(r.0.children, ns + "ContentProtection")
    ensures Unprotected(r.0.children, ns)
  {
    var (a1, m) := Protect(a, ns, n);
    var (cs, k) := ProtectEach(a1.children, ns, m);
    (a1.(children := cs), k)
  }

  /** The set after the video step. */
  function Selected(a: Element, ns: string, ceiling: int): (r: Result<Element, MpdError>)
    ensures r.Err? ==> r.error.BadBandwidth?
  {
    if IsVideo(a) then PruneVideo(a, ns, ceiling) else Ok(a)
  }

  /** Whether the set, or one of its remaining Representations, signals DRM. */
  function SetDrm(a: Element, ns: string): (r: Drm)
    ensures r.found <==> SearchDrm(a, ns).found ||
                         exists i :: 0 <= i < |Tagged(a.children, ns + "Representation")| &&
                                     SearchDrm(Tagged(a.children, ns + "Representation")[i], ns).found
    ensures r.pssh != [] ==> r.found
  {
    var own := SearchDrm(a, ns);
    var reps := SearchEach(Tagged(a.children, ns + "Representation"), ns);
    Drm(own.found || reps.found, own.pssh + reps.pssh)
  }

  datatype SetOutcome = SetOutcome(adaptation: Element, counter: nat, pssh: seq<string>)

  /** One pass of the Period loop over an AdaptationSet. */
  function ProcessSet(a: Element, ns: string, ceiling: int, n: nat): (r: Result<SetOutcome, MpdError>)
    ensures r.Err? ==> r.error.BadBandwidth?
    ensures r.Err? <==> Selected(a, ns, ceiling).Err?
    ensures r.Ok? ==> r.value.adaptation.tag == a.tag && r.value.adaptation.attrs == a.attrs && r.value.counter >= n
  {
    var a1 :- Selected(a, ns, ceiling);
    var drm := SetDrm(a1, ns);
    if drm.found then
      var (a2, m) := ProtectSet(a1, ns, n);
      Ok(SetOutcome(a2, m, drm.pssh))
    else Ok(SetOutcome(a1, n, drm.pssh))
  }

  /** A set that signals DRM, itself or through a remaining Representation,
      ends with no ContentProtection at either level; any other set is left
      as the video step made it. The pssh are those the searches found. */
  lemma ProcessSetDrm(a: Element, ns: string, ceiling: int, n: nat)
    requires Selected(a, ns, ceiling).Ok?
    ensures var r := ProcessSet(a, ns, ceiling, n);
      var drm := SetDrm(Selected(a, ns, ceiling).value, ns);
      && r.Ok?
      && r.value.pssh == drm.pssh
      && (drm.found ==> NoneTagged(r.value.adaptation.children, ns + "ContentProtection") &&
                        Unprotected(r.value.adaptation.children, ns))
      && (!drm.found ==> r.value.adaptation == Selected(a, ns, ceiling).value && r.value.counter == n)
  {
  }

  /** A numbered init template routes back through `P_dsp`: the path the
      player asks for below the proxied base address splits into the route
      key, the segment type `i<n>` and the original template. */
  lemma TemplateRoute<R>(alphabet: Base64.Alphabet, md5: string -> string,
      urljoin: (string, string) -> string, name: string, cache: DashCache.Cache<DashRouting.DrmRoute<R>>,
      url: string, pssh: seq<string>, drm: R, now: int, later: int, n: nat, template: string)
    requires |pssh| > 0 && !HasChar(md5(url), '/')
    requires !Contains(template, DashRouting.DotDotSlash)
    ensures var c := DashRouting.Proxify(alphabet, md5, name, cache, url, pssh, drm, now).1;
      var r := DashRouting.PdspRequest(urljoin, c, md5(url) + "/" + SegmentPrefix('i', n) + DashRouting.Escape(template), later).1;
      r.Ok? && r.value.segmentType == ['i'] + NatToString(n) && r.value.url == urljoin(url, template)
  {
    var t := ['i'] + NatToString(n);
    assert !HasChar(t, '/') by {
      forall j | 0 <= j < |t| ensures t[j] != '/' {
        if j > 0 { assert t[j] == NatToString(n)[j - 1]; assert IsDigit(NatToString(n)[j - 1]); }
      }
    }
    assert md5(url) + "/" + SegmentPrefix('i', n) + DashRouting.Escape(template)
        == md5(url) + "/" + t + "/" + DashRouting.Escape(template);
    DashRouting.PdspRoundTrip(alphabet, md5, urljoin, name, cache, url, pssh, drm, now, later, t, template);
  }
}
