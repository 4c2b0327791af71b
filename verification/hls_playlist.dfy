/** The HLS playlist model (RFC 8216): entries, the line-oriented parser and the
    serialiser `to_string`. */
module HlsPlaylist {
  import opened Wrappers
  import opened Text
  import opened HlsAttributes

  const StreamInfTag := "#EXT-X-STREAM-INF:"
  const InfTag := "#EXTINF:"
  const MediaTag := "#EXT-X-MEDIA:"
  const KeyTag := "#EXT-X-KEY:"
  const EndListTag := "#EXT-X-ENDLIST"

  /** `PlaylistHeader`: one video, audio or subtitle entry. Its URL is kept apart from
      the attributes; the empty URL stands for an audio rendition embedded in the video
      (Python's `None`, which serialises like the empty string). */
  datatype Variant = Variant(url: string, attrs: AttrList)

  /** `SegmentHeader`: the segment URL, the duration token and the pending key tag. */
  datatype Segment = Segment(url: string, duration: string, key: AttrList)

  /** `HlsPlaylist` without its URL and HTTP state. */
  datatype Playlist = Playlist(
    header: seq<string>,
    video: seq<Variant>,
    audio: seq<Variant>,
    subtitles: seq<Variant>,
    segments: seq<Segment>,
    finished: bool)

  const EmptyPlaylist := Playlist([], [], [], [], [], false)

  /** The `PlaylistHeader` constructor: the `URI` attribute never stays among the
      attributes, and every other attribute keeps its value. */
  function MakeVariant(url: string, attrs: AttrList): (p: Variant)
    ensures p.url == url
    ensures !HasKey(p.attrs, "URI")
    ensures forall k :: k != "URI" ==> Lookup(p.attrs, k) == Lookup(attrs, k)
    ensures !HasKey(attrs, "URI") ==> p.attrs == attrs
  {
    RemoveKeeps(attrs, "URI");
    Variant(url, Remove(attrs, "URI"))
  }

  /** The `SegmentHeader` constructor: only the text before the first comma of the
      `EXTINF` payload is kept as the duration. */
  function MakeSegment(url: string, inf: string, key: AttrList): (s: Segment)
    ensures s.url == url && s.key == key
    ensures !HasChar(s.duration, ',') && StartsWith(inf, s.duration)
    ensures |s.duration| < |inf| ==> inf[|s.duration|] == ','
  {
    Segment(url, BeforeFirst(inf, ','), key)
  }

  // ---------------------------------------------------------------------------------
  // Serialisation.

  /** An entry whose `TYPE` is AUDIO or SUBTITLES is written as an `EXT-X-MEDIA` tag. */
  predicate IsMediaEntry(p: Variant) {
    Get(p.attrs, "TYPE") == Some("AUDIO") || Get(p.attrs, "TYPE") == Some("SUBTITLES")
  }

  /** The physical lines `str(PlaylistHeader)` consists of. */
  function VariantLines(p: Variant): (ls: seq<string>)
    ensures |ls| == if IsMediaEntry(p) then 1 else 2
  {
    if IsMediaEntry(p) then
      if p.url != "" then [MediaTag + Render(p.attrs) + ",URI=\"" + p.url + "\""]
      else [MediaTag + Render(p.attrs)]
    else [StreamInfTag + Render(p.attrs), p.url]
  }

  /** The physical lines `str(SegmentHeader)` consists of: a key line when the segment
      carries a key, the `EXTINF` line and the URL. */
  function SegmentLines(s: Segment): (ls: seq<string>)
    ensures |ls| == if |s.key| > 0 then 3 else 2
  {
    (if |s.key| > 0 then [KeyTag + Render(s.key)] else [])
    + [InfTag + s.duration + ",", s.url]
  }

  /** `str(PlaylistHeader)`. */
  function VariantText(p: Variant): string {
    Join(VariantLines(p), "\n")
  }

  /** `str(SegmentHeader)`. */
  function SegmentText(s: Segment): string {
    Join(SegmentLines(s), "\n")
  }

  /** The index filter of `to_string`: `None`, a single `int`, or a list of indices. */
  datatype Selection = AllEntries | Index(i: int) | Indices(idx: seq<int>)

  predicate Selected(sel: Selection, i: int) {
    match sel
    case AllEntries => true
    case Index(j) => i == j
    case Indices(idx) => i in idx
  }

  /** A single index selects what the one-element list selects. */
  lemma IndexIsSingleton(i: int, k: int)
    ensures Selected(Index(i), k) <==> Selected(Indices([i]), k)
  {
  }

  /** The entries of `list` whose position `sel` selects, in their order; `from` is
      the position of the first entry. */
  function Chosen(list: seq<Variant>, sel: Selection, from: nat): (r: seq<Variant>)
    ensures |r| <= |list|
    ensures sel.AllEntries? ==> r == list
    decreases |list|
  {
    if |list| == 0 then []
    else
      var rest := Chosen(list[1..], sel, from + 1);
      if Selected(sel, from) then [list[0]] + rest else rest
  }

  /** Exactly the entries at selected positions are chosen. */
  lemma {:induction false} ChosenMembers(list: seq<Variant>, sel: Selection, from: nat)
    ensures forall v :: v in Chosen(list, sel, from) ==>
      exists i :: 0 <= i < |list| && Selected(sel, from + i) && list[i] == v
    ensures forall i :: 0 <= i < |list| && Selected(sel, from + i) ==> list[i] in Chosen(list, sel, from)
    decreases |list|
  {
    if |list| > 0 {
      var tail := list[1..];
      var rest := Chosen(tail, sel, from + 1);
      ChosenMembers(tail, sel, from + 1);
      var r := Chosen(list, sel, from);
      assert r == if Selected(sel, from) then [list[0]] + rest else rest;
      forall v | v in r
        ensures exists i :: 0 <= i < |list| && Selected(sel, from + i) && list[i] == v
      {
        if v in rest {
          var j :| 0 <= j < |tail| && Selected(sel, from + 1 + j) && tail[j] == v;
          assert list[j + 1] == v && from + (j + 1) == from + 1 + j;
        } else {
          assert Selected(sel, from + 0) && list[0] == v;
        }
      }
      forall i | 0 <= i < |list| && Selected(sel, from + i)
        ensures list[i] in r
      {
        if i > 0 {
          assert list[i] == tail[i - 1] && from + 1 + (i - 1) == from + i;
        }
      }
    }
  }

  function VariantTexts(list: seq<Variant>): (ts: seq<string>)
    ensures |ts| == |list|
    ensures forall i :: 0 <= i < |list| ==> ts[i] == VariantText(list[i])
  {
    seq(|list|, i requires 0 <= i < |list| => VariantText(list[i]))
  }

  function SegmentTexts(list: seq<Segment>): (ts: seq<string>)
    ensures |ts| == |list|
    ensures forall i :: 0 <= i < |list| ==> ts[i] == SegmentText(list[i])
  {
    seq(|list|, i requires 0 <= i < |list| => SegmentText(list[i]))
  }

  /** The items `to_string` joins: the header, then either the segments (and the end tag
      when finished) or the chosen audio, subtitle and video entries. */
  function OutputItems(pl: Playlist, video: Selection, audio: Selection, subtitles: Selection): seq<string> {
    pl.header
    + if |pl.segments| > 0 then
        SegmentTexts(pl.segments) + (if pl.finished then [EndListTag] else [])
      else
        VariantTexts(Chosen(pl.audio, audio, 0))
        + VariantTexts(Chosen(pl.subtitles, subtitles, 0))
        + VariantTexts(Chosen(pl.video, video, 0))
  }

  /** `HlsPlaylist.to_string`. */
  function ToString(pl: Playlist, video: Selection, audio: Selection, subtitles: Selection): (r: string)
    ensures EndsWith(r, "\n")
  {
    Join(OutputItems(pl, video, audio, subtitles), "\n") + "\n"
  }

  // ---------------------------------------------------------------------------------
  // Parsing.

  /** The characters Python's `str.splitlines` breaks lines at. */
  predicate IsLineBreak(c: char) {
    c == '\n' || c == '\r' || c == '\U{0B}' || c == '\U{0C}' || c == '\U{1C}'
    || c == '\U{1D}' || c == '\U{1E}' || c == '\U{85}' || c == '\U{2028}' || c == '\U{2029}'
  }

  predicate NoLineBreak(s: string) {
    forall i :: 0 <= i < |s| ==> !IsLineBreak(s[i])
  }

  function FindBreak(s: string): (i: nat)
    ensures i <= |s|
    ensures forall j :: 0 <= j < i ==> !IsLineBreak(s[j])
    ensures i < |s| ==> IsLineBreak(s[i])
  {
    if |s| == 0 then 0 else if IsLineBreak(s[0]) then 0 else 1 + FindBreak(s[1..])
  }

  /** `text.splitlines()`, except that every break character ends a line (so `\r\n`
      yields an extra empty line) and a trailing break yields a final empty line; the
      parser skips empty lines, so it sees the same non-empty lines either way. */
  function SplitLines(s: string): (ls: seq<string>)
    ensures |ls| > 0
    ensures forall k :: 0 <= k < |ls| ==> NoLineBreak(ls[k])
    decreases |s|
  {
    var i := FindBreak(s);
    if i == |s| then [s] else [s[..i]] + SplitLines(s[i + 1..])
  }

  /** What the parser expects of the next URL line: a video variant (after
      `EXT-X-STREAM-INF`, with its attributes, emptied once used) or a segment (after
      `EXTINF`, with the pending payload; none once used). */
  datatype Expect = ExpectSegment(inf: Option<string>) | ExpectVariant(attrs: AttrList)

  /** The loop state of `HlsPlaylist.parse`: `attrs` and `video_playlist` folded into
      `pending`, plus `key` and `in_header`. */
  datatype State = State(pl: Playlist, pending: Expect, key: AttrList, inHeader: bool)

  const Initial := State(EmptyPlaylist, ExpectSegment(None), [], true)

  /** The exceptions `parse` can raise. */
  datatype ParseError =
    | SegmentWithoutInf(line: string)    // a URL line with no EXTINF before it: `dict.split`
    | SubtitlesWithoutUri                // a SUBTITLES media tag with no URI: KeyError

  /** `HlsPlaylist.add_media_playlist`: AUDIO goes to the audio list (the URI is
      optional), SUBTITLES to the subtitle list (the URI is required), anything else is
      dropped. */
  function AddMedia(pl: Playlist, attrs: AttrList): (r: Result<Playlist, ParseError>)
    ensures Get(attrs, "TYPE") == Some("AUDIO") ==>
      r == Ok(pl.(audio := pl.audio + [MakeVariant(GetOr(attrs, "URI", ""), attrs)]))
    ensures Get(attrs, "TYPE") == Some("SUBTITLES") ==>
      if HasKey(attrs, "URI") then r == Ok(pl.(subtitles := pl.subtitles + [MakeVariant(GetOr(attrs, "URI", ""), attrs)]))
      else r == Err(SubtitlesWithoutUri)
    ensures Get(attrs, "TYPE") != Some("AUDIO") && Get(attrs, "TYPE") != Some("SUBTITLES") ==> r == Ok(pl)
  {
    var t := Get(attrs, "TYPE");
    if t == Some("AUDIO") then
      Ok(pl.(audio := pl.audio + [MakeVariant(GetOr(attrs, "URI", ""), attrs)]))
    else if t == Some("SUBTITLES") then
      match Get(attrs, "URI")
      case None => Err(SubtitlesWithoutUri)
      case Some(u) => Ok(pl.(subtitles := pl.subtitles + [MakeVariant(u, attrs)]))
    else Ok(pl)
  }

  /** Which branch of the parse loop a stripped non-empty line takes, checked in the
      source's order. */
  datatype LineKind = UrlLine | StreamInfLine | InfLine | MediaLine | KeyLine | EndListLine | OtherTagLine

  function Classify(line: string): (k: LineKind)
    ensures k == UrlLine <==> !StartsWith(line, "#")
    ensures k == StreamInfLine ==> StartsWith(line, StreamInfTag)
    ensures k == InfLine ==> StartsWith(line, InfTag)
    ensures k == MediaLine ==> StartsWith(line, MediaTag)
    ensures k == KeyLine ==> StartsWith(line, KeyTag)
    ensures k == EndListLine <==> line == EndListTag
    ensures k == OtherTagLine ==> StartsWith(line, "#") && !IsDispatched(line)
  {
    if !StartsWith(line, "#") then UrlLine
    else if StartsWith(line, StreamInfTag) then StreamInfLine
    else if StartsWith(line, InfTag) then
      assert line[..|InfTag|][4] == 'I';
      InfLine
    else if StartsWith(line, MediaTag) then
      assert line[..|MediaTag|][7] == 'M';
      MediaLine
    else if StartsWith(line, KeyTag) then
      assert line[..|KeyTag|][7] == 'K';
      KeyLine
    else if line == EndListTag then EndListLine
    else OtherTagLine
  }

  /** A line that the parser dispatches on rather than keeping in the header. */
  predicate IsDispatched(line: string) {
    StartsWith(line, StreamInfTag) || StartsWith(line, InfTag) || StartsWith(line, MediaTag)
    || StartsWith(line, KeyTag) || line == EndListTag
  }

  /** One iteration of the parse loop, on a stripped non-empty line. */
  function Step(st: State, line: string): (r: Result<State, ParseError>)
    // A pending key goes to exactly the next segment and is then cleared.
    ensures Classify(line) == UrlLine && st.pending.ExpectSegment? && st.pending.inf.Some? ==>
      r.Ok? && r.value.pl.segments == st.pl.segments + [MakeSegment(line, st.pending.inf.value, st.key)]
      && r.value.key == [] && r.value.pending == ExpectSegment(None)
    // A URL line in variant mode becomes a video variant.
    ensures Classify(line) == UrlLine && st.pending.ExpectVariant? ==>
      r.Ok? && r.value.pl.video == st.pl.video + [MakeVariant(line, st.pending.attrs)]
      && r.value.pending == ExpectVariant([])
    ensures Classify(line) == UrlLine && st.pending == ExpectSegment(None) ==> r.Err?
    // The header only grows while no entry tag has been seen, and never by a dispatched tag.
    ensures r.Ok? ==> (r.value.pl.header == st.pl.header
      || (st.inHeader && Classify(line) == OtherTagLine && r.value.pl.header == st.pl.header + [line]))
    ensures r.Ok? ==> (r.value.pl.finished <==> st.pl.finished || line == EndListTag)
    ensures r.Ok? && Classify(line) in {StreamInfLine, InfLine, MediaLine} ==> !r.value.inHeader
    ensures r.Ok? && Classify(line) in {UrlLine, KeyLine, EndListLine, OtherTagLine} ==> r.value.inHeader == st.inHeader
    ensures r.Ok? && Classify(line) == KeyLine ==> r.value.key == ParseAttributes(line[|KeyTag|..])
  {
    match Classify(line)
    case UrlLine =>
      (match st.pending
       case ExpectVariant(a) =>
         Ok(st.(pl := st.pl.(video := st.pl.video + [MakeVariant(line, a)]), pending := ExpectVariant([])))
       case ExpectSegment(None) => Err(SegmentWithoutInf(line))
       case ExpectSegment(Some(inf)) =>
         Ok(st.(pl := st.pl.(segments := st.pl.segments + [MakeSegment(line, inf, st.key)]),
                pending := ExpectSegment(None), key := [])))
    case StreamInfLine =>
      Ok(st.(inHeader := false, pending := ExpectVariant(ParseAttributes(line[|StreamInfTag|..]))))
    case InfLine =>
      Ok(st.(inHeader := false, pending := ExpectSegment(Some(line[|InfTag|..]))))
    case MediaLine =>
      var pl :- AddMedia(st.pl, ParseAttributes(line[|MediaTag|..]));
      Ok(st.(inHeader := false, pl := pl))
    case KeyLine =>
      Ok(st.(key := ParseAttributes(line[|KeyTag|..])))
    case EndListLine =>
      Ok(st.(pl := st.pl.(finished := true)))
    case OtherTagLine =>
      if st.inHeader then Ok(st.(pl := st.pl.(header := st.pl.header + [line]))) else Ok(st)
  }

  /** The loop of `HlsPlaylist.parse` over the raw lines: each is stripped and empty ones
      are skipped. */
  function ParseLines(st: State, lines: seq<string>): Result<State, ParseError>
    decreases |lines|
  {
    if |lines| == 0 then Ok(st)
    else
      var line := Strip(lines[0]);
      if line == "" then ParseLines(st, lines[1..])
      else
        var st' :- Step(st, line);
        ParseLines(st', lines[1..])
  }

  /** `HlsPlaylist.parse` on a fresh playlist. */
  function Parse(text: string): Result<Playlist, ParseError> {
    var st :- ParseLines(Initial, SplitLines(text));
    Ok(st.pl)
  }
}
