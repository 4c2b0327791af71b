/** The master-playlist passes of `HlsPlaylist`: `filter_master_playlist` and
    `cleanup_master_playlist`. */
module HlsFilter {
  import opened Wrappers
  import opened Text
  import opened Sequences
  import opened HlsAttributes
  import opened HlsPlaylist

  const DescribesVideo := "public.accessibility.describes-video"

  /** An audio rendition with audio description for the visually impaired. */
  predicate DescribesVideoAudio(p: Variant) {
    DescribesVideo in Split(GetOr(p.attrs, "CHARACTERISTICS", ""), ',')
  }

  predicate KeepAudio(p: Variant) {
    !DescribesVideoAudio(p)
  }

  /** Czech or Slovak subtitles by the primary language subtag. */
  predicate IsCzechSlovak(p: Variant) {
    var lang := Split(GetOr(p.attrs, "LANGUAGE", ""), '-')[0];
    lang == "cs" || lang == "sk"
  }

  /** A subtitle track stays when it is Czech/Slovak or explicitly not forced; a foreign
      track without a `FORCED` attribute is dropped. */
  predicate KeepSubtitle(p: Variant) {
    IsCzechSlovak(p) || Get(p.attrs, "FORCED") == Some("NO")
  }

  /** `int(str(p.get('BANDWIDTH', 0)))`; `None` where `int` raises. */
  function Bandwidth(p: Variant): Option<int> {
    ParseInt(GetOr(p.attrs, "BANDWIDTH", "0"))
  }

  predicate AllBandwidthsParse(list: seq<Variant>) {
    forall i :: 0 <= i < |list| ==> Bandwidth(list[i]).Some?
  }

  function Bandwidths(list: seq<Variant>): (bws: seq<int>)
    requires AllBandwidthsParse(list)
    ensures |bws| == |list|
    ensures forall i :: 0 <= i < |list| ==> Some(bws[i]) == Bandwidth(list[i])
  {
    seq(|list|, i requires 0 <= i < |list| => Bandwidth(list[i]).value)
  }

  /** The exceptions `filter_master_playlist` can raise. */
  datatype FilterError = BandwidthNotInteger | NoVideoVariant

  /** `max_bandwidth` only takes effect when truthy. */
  function Ceiling(maxBandwidth: Option<int>): Option<int> {
    if maxBandwidth.Some? && maxBandwidth.value != 0 then maxBandwidth else None
  }

  /** The video variant the stable descending bandwidth sort puts first after the
      ceiling filter, or the worst one when no variant passes the filter. */
  function ChooseVideo(bws: seq<int>, ceiling: Option<int>): (k: nat)
    requires |bws| > 0
    ensures k < |bws|
    // with a ceiling that some variant meets: the best such, the earliest of equals
    ensures ceiling.Some? && (exists j :: 0 <= j < |bws| && bws[j] <= ceiling.value) ==>
      bws[k] <= ceiling.value
      && (forall j :: 0 <= j < |bws| && bws[j] <= ceiling.value ==> bws[j] <= bws[k])
      && (forall j :: 0 <= j < k && bws[j] <= ceiling.value ==> bws[j] < bws[k])
    // with a ceiling nobody meets: the worst overall, the latest of equals
    ensures ceiling.Some? && (forall j :: 0 <= j < |bws| ==> bws[j] > ceiling.value) ==>
      (forall j :: 0 <= j < |bws| ==> bws[k] <= bws[j])
      && (forall j :: k < j < |bws| ==> bws[k] < bws[j])
    // without a ceiling: the best overall, the earliest of equals
    ensures ceiling.None? ==>
      (forall j :: 0 <= j < |bws| ==> bws[j] <= bws[k])
      && (forall j :: 0 <= j < k ==> bws[j] < bws[k])
  {
    match ceiling
    case None => FirstArgMax(bws)
    case Some(c) =>
      match FirstArgMaxAtMost(bws, c)
      case Some(k) => k
      case None => LastArgMin(bws)
  }

  /** `HlsPlaylist.filter_master_playlist(video_variants, max_bandwidth)`. */
  function FilterMaster(pl: Playlist, videoVariants: bool, maxBandwidth: Option<int>): (r: Result<Playlist, FilterError>)
    ensures r.Err? <==> (!AllBandwidthsParse(pl.video)
      || (|pl.video| == 0 && (Ceiling(maxBandwidth).Some? || !videoVariants)))
    ensures r.Ok? ==> (r.value.header == pl.header && r.value.segments == pl.segments
      && r.value.finished == pl.finished)
    // audio description goes, everything else stays
    ensures r.Ok? ==> forall i :: 0 <= i < |r.value.audio| ==> !DescribesVideoAudio(r.value.audio[i])
    ensures r.Ok? ==> forall i :: 0 <= i < |pl.audio| && !DescribesVideoAudio(pl.audio[i]) ==> pl.audio[i] in r.value.audio
    ensures r.Ok? ==> forall i :: 0 <= i < |r.value.audio| ==> r.value.audio[i] in pl.audio
    // forced foreign subtitles go, everything else stays
    ensures r.Ok? ==> forall i :: 0 <= i < |r.value.subtitles| ==> KeepSubtitle(r.value.subtitles[i])
    ensures r.Ok? ==> forall i :: 0 <= i < |pl.subtitles| && KeepSubtitle(pl.subtitles[i]) ==> pl.subtitles[i] in r.value.subtitles
    ensures r.Ok? ==> forall i :: 0 <= i < |r.value.subtitles| ==> r.value.subtitles[i] in pl.subtitles
    // the kept audio and subtitle entries in their original order, each once
    ensures r.Ok? ==> (r.value.audio == Filter(pl.audio, KeepAudio)
      && r.value.subtitles == Filter(pl.subtitles, KeepSubtitle))
    // one video variant unless several are asked for, in which case the list is untouched
    ensures r.Ok? && videoVariants ==> r.value.video == pl.video
    ensures r.Ok? && !videoVariants ==>
      |r.value.video| == 1 && r.value.video[0] == pl.video[ChooseVideo(Bandwidths(pl.video), Ceiling(maxBandwidth))]
  {
    var audio := Filter(pl.audio, KeepAudio);
    var subtitles := Filter(pl.subtitles, KeepSubtitle);
    if !AllBandwidthsParse(pl.video) then Err(BandwidthNotInteger)
    else if |pl.video| == 0 && (Ceiling(maxBandwidth).Some? || !videoVariants) then Err(NoVideoVariant)
    else if videoVariants then Ok(pl.(audio := audio, subtitles := subtitles))
    else
      var k := ChooseVideo(Bandwidths(pl.video), Ceiling(maxBandwidth));
      Ok(pl.(audio := audio, subtitles := subtitles, video := [pl.video[k]]))
  }

  /** Both list filters preserve order: filtering two halves filters the whole. */
  lemma FilterKeepsOrder(a: seq<Variant>, b: seq<Variant>)
    ensures Filter(a + b, KeepAudio) == Filter(a, KeepAudio) + Filter(b, KeepAudio)
    ensures Filter(a + b, KeepSubtitle) == Filter(a, KeepSubtitle) + Filter(b, KeepSubtitle)
  {
    FilterAppend(a, b, KeepAudio);
    FilterAppend(a, b, KeepSubtitle);
  }

  /** The master filter keeps order: the audio (or subtitle) list it leaves is what it
      leaves of the front part followed by what it leaves of the back part. */
  lemma FilterMasterKeepsOrder(pl: Playlist, videoVariants: bool, maxBandwidth: Option<int>,
                               a: seq<Variant>, b: seq<Variant>, c: seq<Variant>, d: seq<Variant>)
    requires pl.audio == a + b && pl.subtitles == c + d
    requires FilterMaster(pl, videoVariants, maxBandwidth).Ok?
    ensures FilterMaster(pl.(audio := a), videoVariants, maxBandwidth).Ok?
      && FilterMaster(pl.(audio := b), videoVariants, maxBandwidth).Ok?
      && FilterMaster(pl.(subtitles := c), videoVariants, maxBandwidth).Ok?
      && FilterMaster(pl.(subtitles := d), videoVariants, maxBandwidth).Ok?
    ensures FilterMaster(pl, videoVariants, maxBandwidth).value.audio
      == FilterMaster(pl.(audio := a), videoVariants, maxBandwidth).value.audio
         + FilterMaster(pl.(audio := b), videoVariants, maxBandwidth).value.audio
    ensures FilterMaster(pl, videoVariants, maxBandwidth).value.subtitles
      == FilterMaster(pl.(subtitles := c), videoVariants, maxBandwidth).value.subtitles
         + FilterMaster(pl.(subtitles := d), videoVariants, maxBandwidth).value.subtitles
  {
    FilterAppend(a, b, KeepAudio);
    FilterAppend(c, d, KeepSubtitle);
  }

  /** The worked example of the selection rule: bandwidths 500, 1000 and 3000 pick 1000
      under a ceiling of 2000 and fall back to 500 under a ceiling of 100. */
  lemma SelectionExample()
    ensures ChooseVideo([500, 1000, 3000], Some(2000)) == 1
    ensures ChooseVideo([500, 1000, 3000], Some(100)) == 0
    ensures ChooseVideo([500, 1000, 3000], None) == 2
  {
    var bws := [500, 1000, 3000];
    assert bws[1] <= 2000;
    assert forall j :: 0 <= j < 3 ==> bws[j] > 100;
  }

  // ---------------------------------------------------------------------------------

  /** The group names the video variants reference through `attr` (AUDIO or SUBTITLES);
      an empty reference does not count. */
  predicate Referenced(video: seq<Variant>, attr: string, group: string) {
    exists i :: 0 <= i < |video| && Get(video[i].attrs, attr) == Some(group) && group != ""
  }

  predicate GroupReferenced(video: seq<Variant>, attr: string, p: Variant) {
    match Get(p.attrs, "GROUP-ID")
    case None => false
    case Some(g) => Referenced(video, attr, g)
  }

  /** `HlsPlaylist.cleanup_master_playlist`. */
  function Cleanup(pl: Playlist): (r: Playlist)
    ensures r.video == pl.video && r.header == pl.header && r.segments == pl.segments
      && r.finished == pl.finished
    // what remains is referenced by a video variant ...
    ensures forall i :: 0 <= i < |r.audio| ==> (r.audio[i] in pl.audio
      && exists g :: Get(r.audio[i].attrs, "GROUP-ID") == Some(g) && Referenced(pl.video, "AUDIO", g))
    ensures forall i :: 0 <= i < |r.subtitles| ==> (r.subtitles[i] in pl.subtitles
      && exists g :: Get(r.subtitles[i].attrs, "GROUP-ID") == Some(g) && Referenced(pl.video, "SUBTITLES", g))
    // ... and every referenced entry remains
    ensures forall i :: 0 <= i < |pl.audio| && GroupReferenced(pl.video, "AUDIO", pl.audio[i]) ==> pl.audio[i] in r.audio
    ensures forall i :: 0 <= i < |pl.subtitles| && GroupReferenced(pl.video, "SUBTITLES", pl.subtitles[i]) ==> pl.subtitles[i] in r.subtitles
  {
    var keepAudio := (p: Variant) => GroupReferenced(pl.video, "AUDIO", p);
    var keepSubtitle := (p: Variant) => GroupReferenced(pl.video, "SUBTITLES", p);
    pl.(audio := Filter(pl.audio, keepAudio), subtitles := Filter(pl.subtitles, keepSubtitle))
  }

  /** Cleanup keeps the surviving entries in their original order, in both lists. */
  lemma CleanupKeepsOrder(pl: Playlist, a: seq<Variant>, b: seq<Variant>, c: seq<Variant>, d: seq<Variant>)
    requires pl.audio == a + b && pl.subtitles == c + d
    ensures Cleanup(pl).audio == Cleanup(pl.(audio := a)).audio + Cleanup(pl.(audio := b)).audio
    ensures Cleanup(pl).subtitles == Cleanup(pl.(subtitles := c)).subtitles + Cleanup(pl.(subtitles := d)).subtitles
  {
    FilterAppend(a, b, (p: Variant) => GroupReferenced(pl.video, "AUDIO", p));
    FilterAppend(c, d, (p: Variant) => GroupReferenced(pl.video, "SUBTITLES", p));
  }

  /** Cleanup after cleanup changes nothing. */
  lemma CleanupIdempotent(pl: Playlist)
    ensures Cleanup(Cleanup(pl)) == Cleanup(pl)
  {
    var r := Cleanup(pl);
    FilterAll(r.audio, (p: Variant) => GroupReferenced(pl.video, "AUDIO", p));
    FilterAll(r.subtitles, (p: Variant) => GroupReferenced(pl.video, "SUBTITLES", p));
  }
}
