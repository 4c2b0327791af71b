/** How the YouTube extractor ranks the streams a player response offers: the
    priority list of video itags built from the configured maximum resolution,
    the formats it never uses, the preference each remaining format receives
    and the stable ascending sort that decides which stream is tried first. */
module YtFormats {
  import opened Wrappers
  import opened Text
  import opened YtJson
  import Sequences

  /** Itags of WebM, 3D and AV1 streams, which are never offered. */
  const IgnoreVideoFormats: seq<string> := [
    "43", "44", "45", "46",
    "82", "83", "84", "85",
    "100", "101", "102",
    "167", "168", "169",
    "170", "171", "172",
    "218", "219",
    "242", "243", "244", "245", "246", "247",
    "394", "395", "396", "397", "398", "399", "400", "401", "402",
    "694", "695", "696", "697", "698", "699", "700", "701", "571",
    "249", "250", "251",
    "302"]

  /** Video itags by resolution, from 176x144 up to 4096x3072; each group is
      headed by the itag the configuration names for that resolution. */
  const VideoGroups: seq<seq<string>> := [
    ["17", "91", "13", "151", "160", "269"],
    ["5", "36", "92", "132", "133", "229"],
    ["18", "93", "34", "6", "134", "230"],
    ["35", "59", "78", "94", "135", "212", "231"],
    ["22", "95", "300", "136", "298", "232"],
    ["37", "96", "301", "137", "299", "248", "303", "271", "270"],
    ["38", "266", "264", "138", "313", "315", "272", "308"]]

  /** The priority list the DASH audio search uses. */
  const DashAudioFormats: seq<string> := ["141", "140", "139", "258", "265", "325", "328", "233", "234"]

  predicate Headed(groups: seq<seq<string>>) {
    forall i :: 0 <= i < |groups| ==> |groups[i]| > 0
  }

  /** `s.index(x)`, `None` where it raises. */
  function IndexOf(s: seq<string>, x: string): (r: Option<nat>)
    ensures r.None? <==> x !in s
    ensures r.Some? ==> r.value < |s| && s[r.value] == x
    ensures r.Some? ==> forall j :: 0 <= j < r.value ==> s[j] != x
    decreases |s|
  {
    if |s| == 0 then None
    else if s[0] == x then Some(0)
    else
      assert s == [s[0]] + s[1..];
      var k := IndexOf(s[1..], x);
      if k.None? then None else Some(k.value + 1)
  }

  /** `priority.index(itag) if itag in priority else 100`. */
  function Preference(priority: seq<string>, itag: string): (p: int)
    ensures itag !in priority ==> p == 100
    ensures itag in priority ==> 0 <= p < |priority| && priority[p] == itag
    ensures itag in priority ==> forall j :: 0 <= j < p ==> priority[j] != itag
  {
    match IndexOf(priority, itag)
    case Some(i) => i
    case None => 100
  }

  // ---------------------------------------------------------------- priority list

  /** The loop of `create_priority_formats`: each group is put in front of the
      list, and the loop stops after the group headed by `maxRes`. */
  function Prepend(groups: seq<seq<string>>, maxRes: string, acc: seq<string>): seq<string>
    requires Headed(groups)
    decreases |groups|
  {
    if |groups| == 0 then acc
    else
      var next := groups[0] + acc;
      if groups[0][0] == maxRes then next else Prepend(groups[1..], maxRes, next)
  }

  /** `create_priority_formats()`: `previous` is the global list before the call. */
  function PriorityFormats(maxRes: string, previous: seq<string>): seq<string> {
    Prepend(VideoGroups, maxRes, previous)
  }

  /** The first group headed by `maxRes`. */
  function MatchedGroup(groups: seq<seq<string>>, maxRes: string): (r: Option<nat>)
    requires Headed(groups)
    ensures r.None? <==> forall j :: 0 <= j < |groups| ==> groups[j][0] != maxRes
    ensures r.Some? ==> r.value < |groups| && groups[r.value][0] == maxRes
    ensures r.Some? ==> forall j :: 0 <= j < r.value ==> groups[j][0] != maxRes
    decreases |groups|
  {
    if |groups| == 0 then None
    else if groups[0][0] == maxRes then Some(0)
    else
      var k := MatchedGroup(groups[1..], maxRes);
      if k.None? then None else Some(k.value + 1)
  }

  /** How many groups the loop visits. */
  function Taken(groups: seq<seq<string>>, maxRes: string): (n: nat)
    requires Headed(groups)
    ensures n <= |groups|
  {
    match MatchedGroup(groups, maxRes)
    case Some(i) => i + 1
    case None => |groups|
  }

  /** The groups piled up, the last one on top. */
  function Stack(groups: seq<seq<string>>): seq<string>
    decreases |groups|
  {
    if |groups| == 0 then [] else Stack(groups[1..]) + groups[0]
  }

  lemma {:induction false} StackTop(groups: seq<seq<string>>)
    requires |groups| > 0
    ensures Stack(groups) == groups[|groups| - 1] + Stack(groups[..|groups| - 1])
    decreases |groups|
  {
    if |groups| > 1 {
      var n := |groups|;
      StackTop(groups[1..]);
      assert groups[1..][n - 2] == groups[n - 1];
      assert groups[..n - 1][1..] == groups[1..][..n - 2];
      assert groups[..n - 1][0] == groups[0];
    } else {
      assert groups[..0] == [];
    }
  }

  lemma {:induction false} PrependShape(groups: seq<seq<string>>, maxRes: string, acc: seq<string>)
    requires Headed(groups)
    ensures Prepend(groups, maxRes, acc) == Stack(groups[..Taken(groups, maxRes)]) + acc
    decreases |groups|
  {
    if |groups| > 0 {
      var n := Taken(groups, maxRes);
      if groups[0][0] == maxRes {
        assert groups[..1] == [groups[0]];
        assert Stack(groups[..1]) == Stack(groups[..1][1..]) + groups[0];
        assert groups[..1][1..] == [];
      } else {
        var rest := groups[1..];
        assert Headed(rest) by {
          forall i | 0 <= i < |rest| ensures |rest[i]| > 0 {
            assert rest[i] == groups[i + 1];
          }
        }
        PrependShape(rest, maxRes, groups[0] + acc);
        assert n == Taken(rest, maxRes) + 1;
        assert groups[..n][1..] == rest[..n - 1];
        assert groups[..n][0] == groups[0];
      }
    }
  }

  /** Where a group is headed by `maxRes`, the loop's result starts with that group. */
  lemma PrependMatched(groups: seq<seq<string>>, maxRes: string, acc: seq<string>)
    requires Headed(groups) && MatchedGroup(groups, maxRes).Some?
    ensures var g := groups[MatchedGroup(groups, maxRes).value];
      var r := Prepend(groups, maxRes, acc);
      |g| <= |r| && r[..|g|] == g && r[0] == maxRes
  {
    PrependShape(groups, maxRes, acc);
    var m := MatchedGroup(groups, maxRes).value;
    var taken := groups[..m + 1];
    StackTop(taken);
    var g := groups[m];
    assert taken[|taken| - 1] == g;
    var r := Prepend(groups, maxRes, acc);
    assert r == g + (Stack(taken[..|taken| - 1]) + acc);
    assert r[..|g|] == g;
  }

  /** The priority list starts with the group of the configured resolution and
      the smaller ones below it, or with all seven groups when no group is
      headed by that itag, and ends with the list as it was before the call. */
  lemma PriorityShape(maxRes: string, previous: seq<string>)
    ensures PriorityFormats(maxRes, previous) == Stack(VideoGroups[..Taken(VideoGroups, maxRes)]) + previous
    ensures MatchedGroup(VideoGroups, maxRes).None? ==> Taken(VideoGroups, maxRes) == 7
    ensures MatchedGroup(VideoGroups, maxRes).Some? ==>
      var g := VideoGroups[MatchedGroup(VideoGroups, maxRes).value];
      |g| <= |PriorityFormats(maxRes, previous)| && PriorityFormats(maxRes, previous)[..|g|] == g && PriorityFormats(maxRes, previous)[0] == maxRes
  {
    var groups := VideoGroups;
    assert Headed(groups);
    assert |groups| == 7;
    PrependShape(groups, maxRes, previous);
    if MatchedGroup(groups, maxRes).Some? {
      PrependMatched(groups, maxRes, previous);
    }
  }

  /** The check before an extraction: the list is rebuilt unless its first itag
      is the configured one. `None` where the empty list makes the check raise. */
  function Refresh(current: seq<string>, maxRes: string): (r: Option<seq<string>>)
    ensures r.None? <==> |current| == 0
  {
    if |current| == 0 then None
    else if current[0] == maxRes then Some(current)
    else Some(PriorityFormats(maxRes, current))
  }

  /** With the configuration naming a group head, one refresh settles the list. */
  lemma RefreshSettles(current: seq<string>, maxRes: string)
    requires |current| > 0
    requires MatchedGroup(VideoGroups, maxRes).Some?
    ensures Refresh(current, maxRes).Some?
    ensures var r := Refresh(current, maxRes).value; |r| > 0 && r[0] == maxRes && Refresh(r, maxRes) == Some(r)
  {
    if current[0] != maxRes {
      PriorityShape(maxRes, current);
    }
  }

  /** With any other configured value every refresh puts all seven groups in
      front again, so the list grows without bound. */
  lemma RefreshGrows(current: seq<string>, maxRes: string)
    requires |current| > 0 && current[0] != maxRes
    requires MatchedGroup(VideoGroups, maxRes).None?
    ensures Refresh(current, maxRes) == Some(Stack(VideoGroups) + current)
    ensures |Stack(VideoGroups)| > 0 && Refresh(current, maxRes).value[0] == "38"
  {
    PriorityShape(maxRes, current);
    assert VideoGroups[..7] == VideoGroups;
    StackTop(VideoGroups);
    assert VideoGroups[6][0] == "38";
  }

  // ---------------------------------------------------------------- HLS url map

  datatype UrlEntry = UrlEntry(url: string, preference: int)

  /** `_url_map_append(url_map, itag, url)` with `priority` the global list. */
  function UrlMapAppend(priority: seq<string>, urlMap: seq<UrlEntry>, itag: string, url: string): (r: seq<UrlEntry>)
    ensures |r| == if itag in IgnoreVideoFormats then |urlMap| else |urlMap| + 1
    ensures r[..|urlMap|] == urlMap
    ensures itag !in IgnoreVideoFormats ==> r[|urlMap|].url == url
    ensures itag !in IgnoreVideoFormats && itag in priority ==>
      0 <= r[|urlMap|].preference < |priority| && priority[r[|urlMap|].preference] == itag
    ensures itag !in IgnoreVideoFormats && itag !in priority ==> r[|urlMap|].preference == 100
  {
    if itag in IgnoreVideoFormats then urlMap
    else urlMap + [UrlEntry(url, Preference(priority, itag))]
  }

  /** The url map built from the `(itag, url)` pairs of a playlist, in order. */
  function UrlMap(priority: seq<string>, found: seq<(string, string)>): seq<UrlEntry>
    decreases |found|
  {
    if |found| == 0 then []
    else UrlMapAppend(priority, UrlMap(priority, found[..|found| - 1]), found[|found| - 1].0, found[|found| - 1].1)
  }

  /** Every entry comes from a pair whose itag is not ignored and carries that
      itag's priority. */
  lemma {:induction false} UrlMapSources(priority: seq<string>, found: seq<(string, string)>)
    ensures forall e :: e in UrlMap(priority, found) ==>
      exists j :: 0 <= j < |found| && found[j].0 !in IgnoreVideoFormats && e == UrlEntry(found[j].1, Preference(priority, found[j].0))
    decreases |found|
  {
    if |found| > 0 {
      var n := |found|;
      var init := found[..n - 1];
      UrlMapSources(priority, init);
      var m := UrlMap(priority, init);
      var r := UrlMap(priority, found);
      forall e | e in r
        ensures exists j :: 0 <= j < n && found[j].0 !in IgnoreVideoFormats && e == UrlEntry(found[j].1, Preference(priority, found[j].0))
      {
        if e in m {
          var j :| 0 <= j < |init| && init[j].0 !in IgnoreVideoFormats && e == UrlEntry(init[j].1, Preference(priority, init[j].0));
          assert init[j] == found[j];
        } else {
          assert found[n - 1].0 !in IgnoreVideoFormats && r == m + [e];
        }
      }
    }
  }

  /** Every pair whose itag is not ignored gives an entry. */
  lemma {:induction false} UrlMapCovers(priority: seq<string>, found: seq<(string, string)>)
    ensures forall j :: 0 <= j < |found| && found[j].0 !in IgnoreVideoFormats ==>
      UrlEntry(found[j].1, Preference(priority, found[j].0)) in UrlMap(priority, found)
    decreases |found|
  {
    if |found| > 0 {
      var n := |found|;
      var init := found[..n - 1];
      UrlMapCovers(priority, init);
      var m := UrlMap(priority, init);
      var r := UrlMap(priority, found);
      assert r[..|m|] == m;
      forall j | 0 <= j < n && found[j].0 !in IgnoreVideoFormats
        ensures UrlEntry(found[j].1, Preference(priority, found[j].0)) in r
      {
        var e := UrlEntry(found[j].1, Preference(priority, found[j].0));
        if j < n - 1 {
          assert init[j] == found[j];
          var k :| 0 <= k < |m| && m[k] == e;
          assert r[k] == e;
        } else {
          assert r[|m|] == e;
        }
      }
    }
  }

  /** The url map holds exactly the entries of the pairs whose itag is not ignored. */
  lemma UrlMapEntries(priority: seq<string>, found: seq<(string, string)>)
    ensures forall e :: e in UrlMap(priority, found) ==>
      exists j :: 0 <= j < |found| && found[j].0 !in IgnoreVideoFormats && e == UrlEntry(found[j].1, Preference(priority, found[j].0))
    ensures forall j :: 0 <= j < |found| && found[j].0 !in IgnoreVideoFormats ==>
      UrlEntry(found[j].1, Preference(priority, found[j].0)) in UrlMap(priority, found)
  {
    UrlMapSources(priority, found);
    UrlMapCovers(priority, found);
  }

  // ---------------------------------------------------------------- streaming formats

  /** One entry of `streamingData.formats` or `adaptiveFormats`. */
  type Format = map<string, Json>

  /** `str(fmt.get('itag', ''))`. */
  function Itag(fmt: Format): string {
    Str(Get(fmt, "itag", JStr("")))
  }

  /** `_skip_fmt(fmt, itag)`: live or DRM streams, OTF streams, ignored itags
      and the itags already taken as DASH MP4. */
  predicate Skip(fmt: Format, itag: string, useDashMp4: seq<string>) {
    || Truthy(Get(fmt, "targetDurationSec", JNull))
    || Truthy(Get(fmt, "drmFamilies", JNull))
    || Get(fmt, "type", JNull) == JStr("FORMAT_STREAM_TYPE_OTF")
    || itag in IgnoreVideoFormats
    || itag in useDashMp4
  }

  /** `fmt.get('mimeType').lower()`, `None` where the value is no string and
      `lower` raises `AttributeError`. */
  function MimeLower(fmt: Format): (r: Option<string>)
    ensures r.Some? <==> Get(fmt, "mimeType", JNull).JStr?
    ensures r.Some? ==> r.value == Lower(Get(fmt, "mimeType", JNull).s)
  {
    match Get(fmt, "mimeType", JNull)
    case JStr(s) => Some(Lower(s))
    case _ => None
  }

  /** The preference 100 ("not in the priority list") resolved by container:
      20 for an MP4 stream of `kind`, 200 for anything else. */
  function ByContainer(fmt: Format, kind: string): (r: Option<int>)
    ensures r.None? <==> MimeLower(fmt).None?
    ensures r.Some? ==> (r.value == 20 <==> Contains(MimeLower(fmt).value, kind))
    ensures r.Some? ==> (r.value == 200 <==> !Contains(MimeLower(fmt).value, kind))
  {
    match MimeLower(fmt)
    case Some(m) => Some(if Contains(m, kind) then 20 else 200)
    case None => None
  }

  /** `_video_pref(fmt, prefer)`; `None` where it raises. */
  function VideoPref(fmt: Format, prefer: int): (r: Option<int>)
    ensures prefer != 100 ==> r == Some(prefer)
    ensures prefer == 100 ==> r == ByContainer(fmt, "video/mp4")
  {
    if prefer == 100 then ByContainer(fmt, "video/mp4") else Some(prefer)
  }

  /** `_audio_pref(fmt, prefer, get_audio)`; `None` where it raises: an
      `audioTrack` that is not an object, or a `displayName` that is not a
      string when it is read. */
  function AudioPref(fmt: Format, prefer: int, getAudio: string): (r: Option<int>)
  {
    match Get(fmt, "audioTrack", JObj(map[]))
    case JObj(track) =>
      var name := Get(track, "displayName", JStr(""));
      if getAudio == "" && !name.JStr? then None
      else
        var original := getAudio == "" && name.JStr? && Contains(Lower(name.s), "original");
        var p1 := if original then prefer - 40 else prefer;
        var p2 := if Truthy(Get(track, "audioIsDefault", JNull)) then p1 - 20 else p1;
        if p2 == 100 then ByContainer(fmt, "audio/mp4") else Some(p2)
    case _ => None
  }

  /** The original track lowers the preference by 40 when no language is
      searched for, the default track by 20, and only an unchanged 100 is
      resolved by container. */
  lemma AudioPrefShape(fmt: Format, prefer: int, getAudio: string)
    requires Get(fmt, "audioTrack", JObj(map[])).JObj?
    requires getAudio != "" || Get(Get(fmt, "audioTrack", JObj(map[])).fields, "displayName", JStr("")).JStr?
    ensures var track := Get(fmt, "audioTrack", JObj(map[])).fields;
      var name := Get(track, "displayName", JStr(""));
      var original := getAudio == "" && Contains(Lower(name.s), "original");
      var isDefault := Truthy(Get(track, "audioIsDefault", JNull));
      var p := prefer - (if original then 40 else 0) - (if isDefault then 20 else 0);
      AudioPref(fmt, prefer, getAudio) == (if p == 100 then ByContainer(fmt, "audio/mp4") else Some(p))
  {
  }

  /** A track whose audio description is unreadable makes the preference raise. */
  lemma AudioPrefRaises(fmt: Format, prefer: int, getAudio: string)
    ensures !Get(fmt, "audioTrack", JObj(map[])).JObj? ==> AudioPref(fmt, prefer, getAudio).None?
    ensures (Get(fmt, "audioTrack", JObj(map[])).JObj? && getAudio == ""
             && !Get(Get(fmt, "audioTrack", JObj(map[])).fields, "displayName", JStr("")).JStr?)
      ==> AudioPref(fmt, prefer, getAudio).None?
  {
  }

  /** What `_sort_formats` does with one format. */
  datatype Verdict = Skipped | Dropped(pref: int) | Kept(pref: int) | Raises

  /** One iteration of the loop of `_sort_formats`; `getAudio` is `None` for
      the video search. */
  function Judge(priority: seq<string>, fmt: Format, getAudio: Option<string>, useDashMp4: seq<string>): (v: Verdict)
    ensures v.Skipped? <==> Skip(fmt, Itag(fmt), useDashMp4)
    ensures v.Kept? ==> v.pref < 200
    ensures v.Dropped? ==> v.pref >= 200
  {
    var itag := Itag(fmt);
    if Skip(fmt, itag, useDashMp4) then Skipped
    else
      var prefer := Preference(priority, itag);
      var p := if getAudio.None? then VideoPref(fmt, prefer) else AudioPref(fmt, prefer, getAudio.value);
      match p
      case None => Raises
      case Some(q) => if q < 200 then Kept(q) else Dropped(q)
  }

  /** A kept format; `Dict()` is the format as the source leaves it, with the
      `preference` key written into it. */
  datatype Ranked = Ranked(fmt: Format, preference: int) {
    function Dict(): Format {
      fmt["preference" := JNum(preference)]
    }
  }

  const ByPreference: Ranked -> int := (r: Ranked) => r.preference

  /** The formats the loop of `_sort_formats` keeps, in input order; `None`
      where one of them raises. */
  function Select(priority: seq<string>, formats: seq<Format>, getAudio: Option<string>, useDashMp4: seq<string>): (r: Option<seq<Ranked>>)
    ensures r.Some? ==> |r.value| <= |formats|
    decreases |formats|
  {
    if |formats| == 0 then Some([])
    else
      var v := Judge(priority, formats[0], getAudio, useDashMp4);
      if v.Raises? then None
      else match Select(priority, formats[1..], getAudio, useDashMp4)
        case None => None
        case Some(rest) => Some((if v.Kept? then [Ranked(formats[0], v.pref)] else []) + rest)
  }

  /** `_sort_formats(priority, formats, get_audio)`. */
  function SortFormats(priority: seq<string>, formats: seq<Format>, getAudio: Option<string>, useDashMp4: seq<string>): (r: Option<seq<Ranked>>)
    ensures r.Some? <==> Select(priority, formats, getAudio, useDashMp4).Some?
    ensures r.Some? ==> |r.value| == |Select(priority, formats, getAudio, useDashMp4).value|
  {
    match Select(priority, formats, getAudio, useDashMp4)
    case Some(kept) => Some(Sequences.SortByKey(kept, ByPreference))
    case None => None
  }

  /** The loop raises exactly when some format's preference raises. */
  lemma {:induction false} SelectRaises(priority: seq<string>, formats: seq<Format>, getAudio: Option<string>, useDashMp4: seq<string>)
    ensures Select(priority, formats, getAudio, useDashMp4).None? <==>
      exists j :: 0 <= j < |formats| && Judge(priority, formats[j], getAudio, useDashMp4).Raises?
    decreases |formats|
  {
    if |formats| > 0 {
      var tail := formats[1..];
      SelectNone(priority, formats, getAudio, useDashMp4);
      SelectRaises(priority, tail, getAudio, useDashMp4);
      if Select(priority, formats, getAudio, useDashMp4).None? {
        if !Judge(priority, formats[0], getAudio, useDashMp4).Raises? {
          var j :| 0 <= j < |tail| && Judge(priority, tail[j], getAudio, useDashMp4).Raises?;
          assert tail[j] == formats[j + 1];
        }
      } else {
        forall j | 0 <= j < |formats| ensures !Judge(priority, formats[j], getAudio, useDashMp4).Raises? {
          if j > 0 {
            assert formats[j] == tail[j - 1];
          }
        }
      }
    }
  }

  lemma SelectNone(priority: seq<string>, formats: seq<Format>, getAudio: Option<string>, useDashMp4: seq<string>)
    requires |formats| > 0
    ensures Select(priority, formats, getAudio, useDashMp4).None? <==>
      Judge(priority, formats[0], getAudio, useDashMp4).Raises? || Select(priority, formats[1..], getAudio, useDashMp4).None?
  {
  }

  /** One turn of the loop: the first format's verdict decides whether it leads the
      formats kept from the rest. */
  lemma SelectCons(priority: seq<string>, formats: seq<Format>, getAudio: Option<string>, useDashMp4: seq<string>)
    requires |formats| > 0 && Select(priority, formats, getAudio, useDashMp4).Some?
    ensures Select(priority, formats[1..], getAudio, useDashMp4).Some?
    ensures var v := Judge(priority, formats[0], getAudio, useDashMp4);
      Select(priority, formats, getAudio, useDashMp4).value
        == (if v.Kept? then [Ranked(formats[0], v.pref)] else []) + Select(priority, formats[1..], getAudio, useDashMp4).value
  {
  }

  /** Every format kept was judged `Kept` with the preference it carries. */
  lemma {:induction false} SelectKeptFrom(priority: seq<string>, formats: seq<Format>, getAudio: Option<string>, useDashMp4: seq<string>)
    requires Select(priority, formats, getAudio, useDashMp4).Some?
    ensures var kept := Select(priority, formats, getAudio, useDashMp4).value;
      forall r :: r in kept ==>
        exists j :: 0 <= j < |formats| && formats[j] == r.fmt && Judge(priority, formats[j], getAudio, useDashMp4) == Kept(r.preference)
    decreases |formats|
  {
    if |formats| > 0 {
      var kept := Select(priority, formats, getAudio, useDashMp4).value;
      var rest := Select(priority, formats[1..], getAudio, useDashMp4).value;
      var v := Judge(priority, formats[0], getAudio, useDashMp4);
      SelectCons(priority, formats, getAudio, useDashMp4);
      SelectKeptFrom(priority, formats[1..], getAudio, useDashMp4);
      forall r | r in kept
        ensures exists j :: 0 <= j < |formats| && formats[j] == r.fmt && Judge(priority, formats[j], getAudio, useDashMp4) == Kept(r.preference)
      {
        if r in rest {
          var j :| 0 <= j < |formats[1..]| && formats[1..][j] == r.fmt && Judge(priority, formats[1..][j], getAudio, useDashMp4) == Kept(r.preference);
          assert formats[j + 1] == formats[1..][j];
        } else {
          assert v.Kept? && r == Ranked(formats[0], v.pref);
        }
      }
    }
  }

  /** Every format judged `Kept` is kept with that preference. */
  lemma {:induction false} SelectKeptAll(priority: seq<string>, formats: seq<Format>, getAudio: Option<string>, useDashMp4: seq<string>)
    requires Select(priority, formats, getAudio, useDashMp4).Some?
    ensures var kept := Select(priority, formats, getAudio, useDashMp4).value;
      forall j :: 0 <= j < |formats| && Judge(priority, formats[j], getAudio, useDashMp4).Kept? ==>
        Ranked(formats[j], Judge(priority, formats[j], getAudio, useDashMp4).pref) in kept
    decreases |formats|
  {
    if |formats| > 0 {
      var kept := Select(priority, formats, getAudio, useDashMp4).value;
      var rest := Select(priority, formats[1..], getAudio, useDashMp4).value;
      SelectCons(priority, formats, getAudio, useDashMp4);
      SelectKeptAll(priority, formats[1..], getAudio, useDashMp4);
      forall j | 0 < j < |formats| && Judge(priority, formats[j], getAudio, useDashMp4).Kept?
        ensures Ranked(formats[j], Judge(priority, formats[j], getAudio, useDashMp4).pref) in kept
      {
        assert formats[1..][j - 1] == formats[j];
      }
    }
  }

  /** The formats kept are exactly those neither skipped nor given a preference
      of 200 or more, each with the preference it was judged to have. */
  lemma SelectKept(priority: seq<string>, formats: seq<Format>, getAudio: Option<string>, useDashMp4: seq<string>)
    requires Select(priority, formats, getAudio, useDashMp4).Some?
    ensures var kept := Select(priority, formats, getAudio, useDashMp4).value;
      forall r :: r in kept <==>
        exists j :: 0 <= j < |formats| && formats[j] == r.fmt && Judge(priority, formats[j], getAudio, useDashMp4) == Kept(r.preference)
  {
    var kept := Select(priority, formats, getAudio, useDashMp4).value;
    SelectKeptFrom(priority, formats, getAudio, useDashMp4);
    SelectKeptAll(priority, formats, getAudio, useDashMp4);
    forall r: Ranked | exists j :: 0 <= j < |formats| && formats[j] == r.fmt && Judge(priority, formats[j], getAudio, useDashMp4) == Kept(r.preference)
      ensures r in kept
    {
      var j :| 0 <= j < |formats| && formats[j] == r.fmt && Judge(priority, formats[j], getAudio, useDashMp4) == Kept(r.preference);
      assert r == Ranked(formats[j], Judge(priority, formats[j], getAudio, useDashMp4).pref);
    }
  }

  /** What `_sort_formats` returns: the kept formats, none of them skipped and
      all with a preference below 200, sorted ascending, and in input order
      among equal preferences. */
  lemma SortFormatsOutput(priority: seq<string>, formats: seq<Format>, getAudio: Option<string>, useDashMp4: seq<string>)
    requires SortFormats(priority, formats, getAudio, useDashMp4).Some?
    ensures var out := SortFormats(priority, formats, getAudio, useDashMp4).value;
      var kept := Select(priority, formats, getAudio, useDashMp4).value;
      && Sequences.SortedByKey(out, ByPreference)
      && multiset(out) == multiset(kept)
      && (forall k :: Sequences.Filter(out, Sequences.KeyIs(ByPreference, k)) == Sequences.Filter(kept, Sequences.KeyIs(ByPreference, k)))
      && (forall i :: 0 <= i < |out| ==> out[i].preference < 200 && !Skip(out[i].fmt, Itag(out[i].fmt), useDashMp4))
  {
    var kept := Select(priority, formats, getAudio, useDashMp4).value;
    var out := SortFormats(priority, formats, getAudio, useDashMp4).value;
    Sequences.SortByKeySorted(kept, ByPreference);
    forall k ensures Sequences.Filter(out, Sequences.KeyIs(ByPreference, k)) == Sequences.Filter(kept, Sequences.KeyIs(ByPreference, k)) {
      Sequences.SortByKeyStable(kept, ByPreference, k);
    }
    KeptJudged(priority, formats, getAudio, useDashMp4);
    forall i | 0 <= i < |out| ensures out[i].preference < 200 && !Skip(out[i].fmt, Itag(out[i].fmt), useDashMp4) {
      assert out[i] in multiset(kept);
    }
  }

  /** In the DASH audio search, a listed itag whose format carries no
      `audioTrack` is kept with its position in the list as preference, so
      the earlier listed itags come first. */
  lemma DashAudioRank(fmt: Format, getAudio: string, useDashMp4: seq<string>, i: nat)
    requires i < |DashAudioFormats| && Itag(fmt) == DashAudioFormats[i]
    requires !Skip(fmt, Itag(fmt), useDashMp4) && "audioTrack" !in fmt
    ensures Judge(DashAudioFormats, fmt, Some(getAudio), useDashMp4) == Kept(i)
  {
    DashAudioDistinct();
    var p := Preference(DashAudioFormats, Itag(fmt));
    assert p == i;
    AudioPrefPlain(fmt, i, getAudio);
  }

  lemma DashAudioDistinct()
    ensures forall a, b :: 0 <= a < b < |DashAudioFormats| ==> DashAudioFormats[a] != DashAudioFormats[b]
  {
  }

  /** Without an `audioTrack` the audio preference is the priority position. */
  lemma AudioPrefPlain(fmt: Format, prefer: int, getAudio: string)
    requires "audioTrack" !in fmt && prefer != 100
    ensures AudioPref(fmt, prefer, getAudio) == Some(prefer)
  {
    assert Get(fmt, "audioTrack", JObj(map[])) == JObj(map[]);
    assert !Contains(Lower(""), "original");
  }

  /** No format kept was skipped, and each has a preference below 200. */
  lemma KeptJudged(priority: seq<string>, formats: seq<Format>, getAudio: Option<string>, useDashMp4: seq<string>)
    requires Select(priority, formats, getAudio, useDashMp4).Some?
    ensures var kept := Select(priority, formats, getAudio, useDashMp4).value;
      forall r :: r in kept ==> r.preference < 200 && !Skip(r.fmt, Itag(r.fmt), useDashMp4)
  {
    var kept := Select(priority, formats, getAudio, useDashMp4).value;
    SelectKeptFrom(priority, formats, getAudio, useDashMp4);
    forall r | r in kept ensures r.preference < 200 && !Skip(r.fmt, Itag(r.fmt), useDashMp4) {
      var j :| 0 <= j < |formats| && formats[j] == r.fmt && Judge(priority, formats[j], getAudio, useDashMp4) == Kept(r.preference);
    }
  }
}
