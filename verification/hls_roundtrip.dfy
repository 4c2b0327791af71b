/** The round-trip law of the HLS model: parsing what `to_string` writes for a playlist
    built from recognised tags gives that playlist back, so serialising the parse of
    such a text reproduces the text. */
module HlsRoundTrip {
  import opened Wrappers
  import opened Text
  import opened HlsAttributes
  import opened HlsPlaylist
  import opened HlsParseFacts

  // ---------------------------------------------------------------------------------
  // Lines and text.

  /** Each line followed by a newline. */
  function ConcatLines(ls: seq<string>): string
    decreases |ls|
  {
    if |ls| == 0 then "" else ls[0] + "\n" + ConcatLines(ls[1..])
  }

  lemma {:induction false} ConcatAppend(a: seq<string>, b: seq<string>)
    ensures ConcatLines(a + b) == ConcatLines(a) + ConcatLines(b)
    decreases |a|
  {
    if |a| == 0 {
      assert a + b == b;
    } else {
      assert (a + b)[1..] == a[1..] + b;
      ConcatAppend(a[1..], b);
    }
  }

  lemma {:induction false} JoinNewline(items: seq<string>)
    requires |items| > 0
    ensures Join(items, "\n") + "\n" == ConcatLines(items)
    decreases |items|
  {
    if |items| > 1 {
      JoinNewline(items[1..]);
    }
  }

  lemma LineBreakIsSpace(c: char)
    ensures IsLineBreak(c) ==> IsSpace(c)
  {
  }

  lemma NoBreakConcat(a: string, b: string)
    requires NoLineBreak(a) && NoLineBreak(b)
    ensures NoLineBreak(a + b)
  {
    forall i | 0 <= i < |a + b| ensures !IsLineBreak((a + b)[i]) {
      if i < |a| { assert (a + b)[i] == a[i]; } else { assert (a + b)[i] == b[i - |a|]; }
    }
  }

  lemma FindBreakAppend(a: string, b: string)
    requires NoLineBreak(a)
    ensures FindBreak(a + b) == |a| + FindBreak(b)
    decreases |a|
  {
    if |a| > 0 {
      assert (a + b)[1..] == a[1..] + b;
      FindBreakAppend(a[1..], b);
    } else {
      assert a + b == b;
    }
  }

  lemma SplitLinesCons(a: string, b: string)
    requires NoLineBreak(a)
    ensures SplitLines(a + "\n" + b) == [a] + SplitLines(b)
  {
    var t := a + "\n" + b;
    assert t == a + ("\n" + b);
    FindBreakAppend(a, "\n" + b);
    assert FindBreak(t) == |a|;
    assert t[..|a|] == a;
    assert t[|a| + 1..] == b;
  }

  /** Splitting newline-terminated lines gives the lines back, plus the empty text after
      the last newline. */
  lemma {:induction false} SplitConcat(ls: seq<string>)
    requires forall i :: 0 <= i < |ls| ==> NoLineBreak(ls[i])
    ensures SplitLines(ConcatLines(ls)) == ls + [""]
    decreases |ls|
  {
    if |ls| > 0 {
      SplitConcat(ls[1..]);
      SplitConcatCons(ls[0], ls[1..]);
      assert [ls[0]] + ls[1..] == ls;
    } else {
      assert ConcatLines(ls) == "" && FindBreak("") == 0;
    }
  }

  lemma SplitConcatCons(l: string, rest: seq<string>)
    requires NoLineBreak(l) && SplitLines(ConcatLines(rest)) == rest + [""]
    ensures SplitLines(ConcatLines([l] + rest)) == [l] + rest + [""]
  {
    var ls := [l] + rest;
    assert ls[0] == l && ls[1..] == rest;
    assert ConcatLines(ls) == l + "\n" + ConcatLines(rest);
    SplitLinesCons(l, ConcatLines(rest));
  }

  // ---------------------------------------------------------------------------------
  // The physical lines of a playlist.

  function VariantLinesAll(list: seq<Variant>): seq<string>
    decreases |list|
  {
    if |list| == 0 then [] else VariantLines(list[0]) + VariantLinesAll(list[1..])
  }

  function SegmentLinesAll(list: seq<Segment>): seq<string>
    decreases |list|
  {
    if |list| == 0 then [] else SegmentLines(list[0]) + SegmentLinesAll(list[1..])
  }

  function PhysicalLines(pl: Playlist): seq<string> {
    pl.header
    + if |pl.segments| > 0 then
        SegmentLinesAll(pl.segments) + (if pl.finished then [EndListTag] else [])
      else
        VariantLinesAll(pl.audio) + VariantLinesAll(pl.subtitles) + VariantLinesAll(pl.video)
  }

  lemma {:induction false} VariantTextsLines(list: seq<Variant>)
    ensures ConcatLines(VariantTexts(list)) == ConcatLines(VariantLinesAll(list))
    decreases |list|
  {
    if |list| > 0 {
      assert VariantTexts(list) == [VariantText(list[0])] + VariantTexts(list[1..]);
      VariantTextsLines(list[1..]);
      TextsStep(VariantText(list[0]), VariantLines(list[0]), VariantTexts(list[1..]), VariantLinesAll(list[1..]));
    }
  }

  lemma {:induction false} SegmentTextsLines(list: seq<Segment>)
    ensures ConcatLines(SegmentTexts(list)) == ConcatLines(SegmentLinesAll(list))
    decreases |list|
  {
    if |list| > 0 {
      SegmentTextsCons(list);
      SegmentTextsLines(list[1..]);
      TextsStep(SegmentText(list[0]), SegmentLines(list[0]), SegmentTexts(list[1..]), SegmentLinesAll(list[1..]));
    }
  }

  lemma SegmentTextsCons(list: seq<Segment>)
    requires |list| > 0
    ensures SegmentTexts(list) == [SegmentText(list[0])] + SegmentTexts(list[1..])
  {
    var t, u := SegmentTexts(list), [SegmentText(list[0])] + SegmentTexts(list[1..]);
    forall i | 0 <= i < |t| ensures t[i] == u[i] {
      if i > 0 {
        assert u[i] == SegmentTexts(list[1..])[i - 1] && list[1..][i - 1] == list[i];
      }
    }
  }

  /** An item that joins some lines, in front of items that write the same text as
      some more lines, writes the same text as all those lines. */
  lemma TextsStep(x: string, ls: seq<string>, items: seq<string>, more: seq<string>)
    requires |ls| > 0 && x == Join(ls, "\n") && ConcatLines(items) == ConcatLines(more)
    ensures ConcatLines([x] + items) == ConcatLines(ls + more)
  {
    ConcatAppend([x], items);
    ConcatAppend(ls, more);
    JoinNewline(ls);
    assert ConcatLines([x]) == x + "\n" + ConcatLines([]);
  }

  lemma ConcatThree(a: seq<string>, b: seq<string>, c: seq<string>)
    ensures ConcatLines(a + b + c) == ConcatLines(a) + ConcatLines(b) + ConcatLines(c)
  {
    ConcatAppend(a + b, c);
    ConcatAppend(a, b);
  }

  lemma ConcatFour(a: seq<string>, b: seq<string>, c: seq<string>, d: seq<string>)
    ensures ConcatLines(a + b + c + d)
      == ConcatLines(a) + ConcatLines(b) + ConcatLines(c) + ConcatLines(d)
  {
    ConcatAppend(a + b + c, d);
    ConcatThree(a, b, c);
  }

  lemma MediaItems(pl: Playlist)
    requires |pl.segments| == 0
    ensures OutputItems(pl, AllEntries, AllEntries, AllEntries)
      == pl.header + VariantTexts(pl.audio) + VariantTexts(pl.subtitles) + VariantTexts(pl.video)
  {
    ChosenAll(pl.audio);
    ChosenAll(pl.subtitles);
    ChosenAll(pl.video);
  }

  lemma ChosenAll(list: seq<Variant>)
    ensures Chosen(list, AllEntries, 0) == list
  {
  }

  lemma MediaPhysical(pl: Playlist)
    requires |pl.segments| == 0
    ensures PhysicalLines(pl)
      == pl.header + VariantLinesAll(pl.audio) + VariantLinesAll(pl.subtitles) + VariantLinesAll(pl.video)
  {
    var a, b, c := VariantLinesAll(pl.audio), VariantLinesAll(pl.subtitles), VariantLinesAll(pl.video);
    assert PhysicalLines(pl) == pl.header + (a + b + c);
    LinesAssoc(pl.header, a, b, c);
  }

  lemma LinesAssoc(h: seq<string>, a: seq<string>, b: seq<string>, c: seq<string>)
    ensures h + (a + b + c) == h + a + b + c
  {
  }

  lemma MediaItemsLines(pl: Playlist)
    requires |pl.segments| == 0
    ensures ConcatLines(OutputItems(pl, AllEntries, AllEntries, AllEntries)) == ConcatLines(PhysicalLines(pl))
  {
    MediaItems(pl);
    ConcatFour(pl.header, VariantTexts(pl.audio), VariantTexts(pl.subtitles), VariantTexts(pl.video));
    VariantTextsLines(pl.audio);
    VariantTextsLines(pl.subtitles);
    VariantTextsLines(pl.video);
    MediaPhysical(pl);
    ConcatFour(pl.header, VariantLinesAll(pl.audio), VariantLinesAll(pl.subtitles), VariantLinesAll(pl.video));
  }

  lemma SegmentItemsLines(pl: Playlist)
    requires |pl.segments| > 0
    ensures ConcatLines(OutputItems(pl, AllEntries, AllEntries, AllEntries)) == ConcatLines(PhysicalLines(pl))
  {
    var tail: seq<string> := if pl.finished then [EndListTag] else [];
    var t := SegmentTexts(pl.segments);
    var l := SegmentLinesAll(pl.segments);
    assert OutputItems(pl, AllEntries, AllEntries, AllEntries) == pl.header + t + tail;
    ConcatThree(pl.header, t, tail);
    SegmentTextsLines(pl.segments);
    assert PhysicalLines(pl) == pl.header + l + tail;
    ConcatThree(pl.header, l, tail);
  }

  /** `to_string` with no index filter is the physical lines, each newline-terminated;
      with nothing to write it is a lone newline. */
  lemma ToStringLines(pl: Playlist)
    ensures var items := OutputItems(pl, AllEntries, AllEntries, AllEntries);
      ToString(pl, AllEntries, AllEntries, AllEntries)
        == if |items| == 0 then "\n" else ConcatLines(PhysicalLines(pl))
  {
    var items := OutputItems(pl, AllEntries, AllEntries, AllEntries);
    if |items| > 0 {
      JoinNewline(items);
      if |pl.segments| > 0 {
        SegmentItemsLines(pl);
      } else {
        MediaItemsLines(pl);
      }
    }
  }

  // ---------------------------------------------------------------------------------
  // Rendered attribute lists as parts of a line.

  /** An attribute list the parser reads back and that fits on one line. */
  predicate SafeAttrs(a: AttrList) {
    Canonical(a) && forall i :: 0 <= i < |a| ==> NoLineBreak(a[i].1.value)
  }

  lemma PlainNoBreak(s: string)
    requires AllPlain(s)
    ensures NoLineBreak(s)
  {
    forall i | 0 <= i < |s| ensures !IsLineBreak(s[i]) {
      LineBreakIsSpace(s[i]);
    }
  }

  lemma PairNoBreak(k: string, v: AttrValue)
    requires GoodKey(k) && NoLineBreak(v.value)
    ensures NoLineBreak(Pair(k, v))
  {
    PlainNoBreak(k);
    NoBreakConcat(k, "=");
    if v.quoted {
      NoBreakConcat("\"", v.value);
      NoBreakConcat("\"" + v.value, "\"");
    }
    NoBreakConcat(k + "=", Export(v));
  }

  lemma {:induction false} JoinNoBreak(ps: seq<string>, sep: string)
    requires NoLineBreak(sep)
    requires forall i :: 0 <= i < |ps| ==> NoLineBreak(ps[i])
    ensures NoLineBreak(Join(ps, sep))
    decreases |ps|
  {
    if |ps| > 1 {
      JoinNoBreak(ps[1..], sep);
      NoBreakConcat(ps[0], sep);
      NoBreakConcat(ps[0] + sep, Join(ps[1..], sep));
    }
  }

  lemma RenderNoBreak(a: AttrList)
    requires SafeAttrs(a)
    ensures NoLineBreak(Render(a))
  {
    forall i | 0 <= i < |a| ensures NoLineBreak(Pairs(a)[i]) {
      PairNoBreak(a[i].0, a[i].1);
    }
    JoinNoBreak(Pairs(a), ",");
  }

  lemma {:induction false} JoinSnoc(ps: seq<string>, p: string, sep: string)
    requires |ps| > 0
    ensures Join(ps + [p], sep) == Join(ps, sep) + sep + p
    decreases |ps|
  {
    if |ps| == 1 {
      assert (ps + [p])[1..] == [p];
    } else {
      assert (ps + [p])[1..] == ps[1..] + [p];
      JoinSnoc(ps[1..], p, sep);
    }
  }

  /** Rendering one more attribute appends a comma and its pair. */
  lemma RenderSnoc(a: AttrList, k: string, v: AttrValue)
    requires |a| > 0
    ensures Render(a + [(k, v)]) == Render(a) + "," + Pair(k, v)
  {
    assert Pairs(a + [(k, v)]) == Pairs(a) + [Pair(k, v)];
    JoinSnoc(Pairs(a), Pair(k, v), ",");
  }

  /** A rendered non-empty canonical list ends in a character `strip` keeps. */
  lemma RenderLast(a: AttrList)
    requires Canonical(a) && |a| > 0
    ensures |Render(a)| > 0 && !IsSpace(Render(a)[|Render(a)| - 1])
  {
    var n := |a|;
    var last := Pair(a[n - 1].0, a[n - 1].1);
    assert GoodValue(a[n - 1].1);
    assert |last| > 0 && !IsSpace(last[|last| - 1]);
    if n == 1 {
      assert Pairs(a) == [last];
    } else {
      assert a == a[..n - 1] + [a[n - 1]];
      RenderSnoc(a[..n - 1], a[n - 1].0, a[n - 1].1);
    }
  }

  /** Dropping a key that was appended to a list without it gives the list back. */
  lemma {:induction false} RemoveSnoc(a: AttrList, k: string, v: AttrValue)
    requires !HasKey(a, k)
    ensures Remove(a + [(k, v)], k) == a
    decreases |a|
  {
    if |a| == 0 {
      assert [] + [(k, v)] == [(k, v)];
    } else {
      assert (a + [(k, v)])[1..] == a[1..] + [(k, v)];
      assert !HasKey(a[1..], k);
      RemoveSnoc(a[1..], k, v);
    }
  }

  // ---------------------------------------------------------------------------------
  // How each written line is classified.

  /** A line the parser sees unchanged: non-empty, stripped, on one line. */
  predicate GoodLine(l: string) {
    l != "" && Stripped(l) && NoLineBreak(l)
  }

  lemma TagNoBreak(tag: string, x: string)
    requires tag in {StreamInfTag, InfTag, MediaTag, KeyTag}
    requires NoLineBreak(x)
    ensures NoLineBreak(tag + x)
  {
    NoBreakConcat(tag, x);
  }

  lemma ClassifyStreamInf(x: string)
    ensures Classify(StreamInfTag + x) == StreamInfLine
  {
    var l := StreamInfTag + x;
    assert l[..1] == "#";
    assert l[..|StreamInfTag|] == StreamInfTag;
  }

  lemma ClassifyInf(x: string)
    ensures Classify(InfTag + x) == InfLine
  {
    var l := InfTag + x;
    assert l[..1] == "#";
    assert l[..|InfTag|] == InfTag;
    assert l[4] == 'I';
    assert !StartsWith(l, StreamInfTag);
  }

  lemma ClassifyMedia(x: string)
    ensures Classify(MediaTag + x) == MediaLine
  {
    var l := MediaTag + x;
    assert l[..1] == "#";
    assert l[..|MediaTag|] == MediaTag;
    assert l[4] == '-' && l[7] == 'M';
    assert !StartsWith(l, StreamInfTag);
    assert !StartsWith(l, InfTag);
  }

  lemma ClassifyKey(x: string)
    ensures Classify(KeyTag + x) == KeyLine
  {
    var l := KeyTag + x;
    assert l[..1] == "#";
    assert l[..|KeyTag|] == KeyTag;
    assert l[4] == '-' && l[7] == 'K';
    assert !StartsWith(l, StreamInfTag);
    assert !StartsWith(l, InfTag);
    assert !StartsWith(l, MediaTag);
  }

  // ---------------------------------------------------------------------------------
  // One entry at a time.

  /** An audio or subtitle entry `to_string` writes in a form `parse` reads back. */
  predicate GoodMedia(p: Variant, kind: string) {
    Get(p.attrs, "TYPE") == Some(kind) && SafeAttrs(p.attrs) && !HasKey(p.attrs, "URI")
    && NoLineBreak(p.url) && Unescaped(p.url)
    && (kind == "SUBTITLES" ==> p.url != "")
  }

  /** A video entry `to_string` writes in a form `parse` reads back. */
  predicate GoodVideo(p: Variant) {
    !IsMediaEntry(p) && SafeAttrs(p.attrs) && !HasKey(p.attrs, "URI") && GoodUrl(p.url)
  }

  /** A URL line: one the parser takes as a URL and leaves unchanged. */
  predicate GoodUrl(u: string) {
    GoodLine(u) && u[0] != '#'
  }

  lemma UrlClassify(u: string)
    requires GoodUrl(u)
    ensures Classify(u) == UrlLine
  {
    assert u[..1] != "#" by { assert u[..1][0] == u[0]; }
  }

  /** The URI attribute a media line with a URL carries. */
  function UriAttr(url: string): (string, AttrValue) {
    ("URI", AttrValue(url, true))
  }

  lemma UriAttrsCanonical(p: Variant, kind: string)
    requires GoodMedia(p, kind)
    ensures SafeAttrs(p.attrs + [UriAttr(p.url)])
  {
    var a := p.attrs + [UriAttr(p.url)];
    assert GoodKey("URI");
    forall i, j | 0 <= i < j < |a| ensures a[i].0 != a[j].0 {
      if j == |a| - 1 {
        assert a[i] == p.attrs[i];
      }
    }
  }

  /** The attributes a media line carries: the entry's own, then its URI when it has
      one. */
  function MediaAttrs(p: Variant): AttrList {
    if p.url != "" then p.attrs + [UriAttr(p.url)] else p.attrs
  }

  lemma MediaLineIs(p: Variant, kind: string)
    requires kind == "AUDIO" || kind == "SUBTITLES"
    requires GoodMedia(p, kind)
    ensures VariantLines(p) == [MediaTag + Render(MediaAttrs(p))]
  {
    assert Get(p.attrs, "TYPE") == Some(kind);
    assert IsMediaEntry(p);
    if p.url != "" {
      assert p.attrs != [];
      RenderSnoc(p.attrs, "URI", AttrValue(p.url, true));
      UriLine(Render(p.attrs), p.url);
    }
  }

  lemma UriLine(r: string, u: string)
    ensures MediaTag + r + ",URI=\"" + u + "\"" == MediaTag + (r + "," + Pair("URI", AttrValue(u, true)))
  {
    UriPair(u);
    UriConcat(MediaTag, r, ",URI=\"", "URI=\"", u, "\"");
  }

  lemma UriPair(u: string)
    ensures Pair("URI", AttrValue(u, true)) == "URI=\"" + u + "\""
  {
  }

  lemma UriConcat(m: string, r: string, c: string, q: string, u: string, z: string)
    requires c == "," + q
    ensures m + r + c + u + z == m + (r + "," + (q + u + z))
  {
  }

  /** What the parser reads from the attributes of a media line with a URL. */
  lemma MediaAttrsWithUrl(p: Variant, kind: string)
    requires GoodMedia(p, kind) && p.url != ""
    ensures var a := MediaAttrs(p);
      Get(a, "TYPE") == Some(kind) && HasKey(a, "URI") && MakeVariant(GetOr(a, "URI", ""), a) == p
  {
    var a := p.attrs + [UriAttr(p.url)];
    UriAttrsCanonical(p, kind);
    RemoveSnoc(p.attrs, "URI", AttrValue(p.url, true));
    assert Remove(a, "URI") == p.attrs;
    RemoveKeeps(a, "URI");
    assert Lookup(a, "TYPE") == Lookup(p.attrs, "TYPE");
    assert a[|a| - 1] == UriAttr(p.url);
    assert Lookup(a, "URI") == Some(AttrValue(p.url, true));
  }

  /** The media line is a good line, and its attributes parse back. */
  lemma MediaLineGood(p: Variant, kind: string)
    requires kind == "AUDIO" || kind == "SUBTITLES"
    requires GoodMedia(p, kind)
    ensures var line := MediaTag + Render(MediaAttrs(p));
      GoodLine(line) && Classify(line) == MediaLine && ParseAttributes(line[|MediaTag|..]) == MediaAttrs(p)
  {
    if p.url != "" {
      UriAttrsCanonical(p, kind);
    }
    assert |MediaAttrs(p)| > 0 && SafeAttrs(MediaAttrs(p));
    MediaLineOf(MediaAttrs(p));
  }

  /** A media tag followed by safe attributes is a good media line that parses back. */
  lemma MediaLineOf(a: AttrList)
    requires SafeAttrs(a) && |a| > 0
    ensures var line := MediaTag + Render(a);
      GoodLine(line) && Classify(line) == MediaLine && ParseAttributes(line[|MediaTag|..]) == a
  {
    var line := MediaTag + Render(a);
    RenderLast(a);
    RenderNoBreak(a);
    TagNoBreak(MediaTag, Render(a));
    assert line[|line| - 1] == Render(a)[|Render(a)| - 1];
    ClassifyMedia(Render(a));
    assert line[|MediaTag|..] == Render(a);
    ParseRender(a);
  }

  lemma MediaAdd(pl: Playlist, p: Variant, kind: string)
    requires kind == "AUDIO" || kind == "SUBTITLES"
    requires GoodMedia(p, kind)
    ensures AddMedia(pl, MediaAttrs(p))
      == Ok(if kind == "AUDIO" then pl.(audio := pl.audio + [p]) else pl.(subtitles := pl.subtitles + [p]))
  {
    if p.url != "" {
      MediaAttrsWithUrl(p, kind);
    }
  }

  /** A media entry is one line, which the parser reads as that same entry. */
  lemma MediaStep(st: State, p: Variant, kind: string)
    requires kind == "AUDIO" || kind == "SUBTITLES"
    requires GoodMedia(p, kind)
    ensures |VariantLines(p)| == 1 && GoodLine(VariantLines(p)[0])
    ensures Step(st, VariantLines(p)[0])
      == Ok(st.(inHeader := false, pl := if kind == "AUDIO" then st.pl.(audio := st.pl.audio + [p])
                                         else st.pl.(subtitles := st.pl.subtitles + [p])))
  {
    MediaLineIs(p, kind);
    MediaLineGood(p, kind);
    MediaAdd(st.pl, p, kind);
    var line := MediaTag + Render(MediaAttrs(p));
    assert VariantLines(p)[0] == line;
    StepMedia(st, line, MediaAttrs(p),
      if kind == "AUDIO" then st.pl.(audio := st.pl.audio + [p]) else st.pl.(subtitles := st.pl.subtitles + [p]));
  }

  /** The parser's turn on any media line whose attributes the playlist accepts. */
  lemma StepMedia(st: State, line: string, a: AttrList, pl: Playlist)
    requires Classify(line) == MediaLine && ParseAttributes(line[|MediaTag|..]) == a
    requires AddMedia(st.pl, a) == Ok(pl)
    ensures Step(st, line) == Ok(st.(inHeader := false, pl := pl))
  {
  }

  lemma StreamInfLineGood(a: AttrList)
    requires SafeAttrs(a)
    ensures var line := StreamInfTag + Render(a);
      GoodLine(line) && Classify(line) == StreamInfLine && ParseAttributes(line[|StreamInfTag|..]) == a
  {
    var line := StreamInfTag + Render(a);
    if |a| > 0 {
      RenderLast(a);
      assert line[|line| - 1] == Render(a)[|Render(a)| - 1];
    } else {
      assert line == StreamInfTag;
    }
    RenderNoBreak(a);
    TagNoBreak(StreamInfTag, Render(a));
    ClassifyStreamInf(Render(a));
    assert line[|StreamInfTag|..] == Render(a);
    ParseRender(a);
  }

  /** A video entry is its `EXT-X-STREAM-INF` line and its URL, which the parser reads as
      that same entry. */
  lemma VideoSteps(st: State, p: Variant)
    requires GoodVideo(p)
    ensures var ls := VariantLines(p);
      |ls| == 2 && GoodLine(ls[0]) && GoodLine(ls[1])
      && Step(st, ls[0]) == Ok(st.(inHeader := false, pending := ExpectVariant(p.attrs)))
      && Step(st.(inHeader := false, pending := ExpectVariant(p.attrs)), ls[1])
         == Ok(st.(inHeader := false, pending := ExpectVariant([]), pl := st.pl.(video := st.pl.video + [p])))
  {
    assert VariantLines(p) == [StreamInfTag + Render(p.attrs), p.url];
    StreamInfLineGood(p.attrs);
    UrlClassify(p.url);
  }

  /** A segment `to_string` writes in a form `parse` reads back. */
  predicate GoodSegment(s: Segment) {
    !HasChar(s.duration, ',') && NoLineBreak(s.duration) && SafeAttrs(s.key) && GoodUrl(s.url)
  }

  lemma KeyLineGood(a: AttrList)
    requires SafeAttrs(a) && |a| > 0
    ensures var line := KeyTag + Render(a);
      GoodLine(line) && Classify(line) == KeyLine && ParseAttributes(line[|KeyTag|..]) == a
  {
    var line := KeyTag + Render(a);
    RenderLast(a);
    assert line[|line| - 1] == Render(a)[|Render(a)| - 1];
    RenderNoBreak(a);
    TagNoBreak(KeyTag, Render(a));
    ClassifyKey(Render(a));
    assert line[|KeyTag|..] == Render(a);
    ParseRender(a);
  }

  lemma InfLineGood(d: string)
    requires NoLineBreak(d)
    ensures var line := InfTag + d + ",";
      GoodLine(line) && Classify(line) == InfLine && line[|InfTag|..] == d + ","
  {
    var line := InfTag + d + ",";
    assert line == InfTag + (d + ",");
    NoBreakConcat(d, ",");
    TagNoBreak(InfTag, d + ",");
    ClassifyInf(d + ",");
  }

  /** The duration read back from `d,` is `d` when `d` has no comma. */
  lemma DurationBack(url: string, d: string, key: AttrList)
    requires !HasChar(d, ',')
    ensures MakeSegment(url, d + ",", key) == Segment(url, d, key)
  {
    FindCharAppend(d, ",", ',');
    assert FindChar(",", ',') == 0;
    assert (d + ",")[..|d|] == d;
  }

  /** The steps of the segment's `EXTINF` line and URL, with `key` pending. */
  lemma SegmentTailSteps(st: State, s: Segment)
    requires GoodSegment(s) && st.key == s.key
    ensures var inf := InfTag + s.duration + ",";
      var st1 := st.(inHeader := false, pending := ExpectSegment(Some(s.duration + ",")));
      GoodLine(inf)
      && Step(st, inf) == Ok(st1)
      && Step(st1, s.url)
         == Ok(st1.(pending := ExpectSegment(None), key := [], pl := st.pl.(segments := st.pl.segments + [s])))
  {
    InfLineGood(s.duration);
    UrlClassify(s.url);
    DurationBack(s.url, s.duration, s.key);
  }

  // ---------------------------------------------------------------------------------
  // Whole groups of lines.

  predicate AllGood(ls: seq<string>) {
    forall i :: 0 <= i < |ls| ==> GoodLine(ls[i])
  }

  lemma AllGoodAppend(a: seq<string>, b: seq<string>)
    requires AllGood(a) && AllGood(b)
    ensures AllGood(a + b)
  {
    forall i | 0 <= i < |a + b| ensures GoodLine((a + b)[i]) {
      if i < |a| { assert (a + b)[i] == a[i]; } else { assert (a + b)[i] == b[i - |a|]; }
    }
  }

  lemma {:induction false} ParseLinesAppend(st: State, a: seq<string>, b: seq<string>)
    ensures ParseLines(st, a + b)
      == var r := ParseLines(st, a); if r.Ok? then ParseLines(r.value, b) else Err(r.error)
    decreases |a|
  {
    if |a| == 0 {
      assert a + b == b;
    } else {
      assert (a + b)[0] == a[0];
      assert (a + b)[1..] == a[1..] + b;
      var line := Strip(a[0]);
      if line == "" {
        ParseLinesAppend(st, a[1..], b);
      } else {
        match Step(st, line)
        case Ok(st1) => ParseLinesAppend(st1, a[1..], b);
        case Err(_) =>
      }
    }
  }

  /** The parser takes a good line as it is. */
  lemma GoodCons(st: State, l: string, rest: seq<string>)
    requires GoodLine(l)
    ensures ParseLines(st, [l] + rest)
      == var r := Step(st, l); if r.Ok? then ParseLines(r.value, rest) else Err(r.error)
  {
    StripStripped(l);
    StrippedCons(st, l, rest);
  }

  lemma StrippedCons(st: State, l: string, rest: seq<string>)
    requires Strip(l) == l && l != ""
    ensures ParseLines(st, [l] + rest)
      == var r := Step(st, l); if r.Ok? then ParseLines(r.value, rest) else Err(r.error)
  {
    var lines := [l] + rest;
    assert lines[0] == l && lines[1..] == rest;
    ParseLinesCons(st, lines);
  }

  /** Header lines: tags the parser does not dispatch on, each on its own line. */
  predicate GoodHeader(h: seq<string>) {
    forall i :: 0 <= i < |h| ==> GoodLine(h[i]) && Classify(h[i]) == OtherTagLine
  }

  function AddKind(pl: Playlist, list: seq<Variant>, kind: string): Playlist {
    if kind == "AUDIO" then pl.(audio := pl.audio + list) else pl.(subtitles := pl.subtitles + list)
  }

  // Each entry's lines, as steps of the parse. Sequence and state identities are proved
  // apart from the parser's terms, which are costly to have around.

  lemma PairSeq(a: string, b: string, rest: seq<string>)
    ensures [a, b] + rest == [a] + ([b] + rest)
  {
  }

  lemma TripleSeq(a: string, b: string, c: string, rest: seq<string>)
    ensures [a, b, c] + rest == [a] + ([b, c] + rest)
  {
  }

  lemma Chain2(st: State, a: string, b: string, rest: seq<string>, st1: State, st2: State)
    requires GoodLine(a) && GoodLine(b)
    requires Step(st, a) == Ok(st1) && Step(st1, b) == Ok(st2)
    ensures ParseLines(st, [a, b] + rest) == ParseLines(st2, rest)
  {
    PairSeq(a, b, rest);
    GoodCons(st, a, [b] + rest);
    GoodCons(st1, b, rest);
  }

  lemma HeaderParse(st: State, l: string, rest: seq<string>)
    requires st.inHeader && GoodLine(l) && Classify(l) == OtherTagLine
    ensures ParseLines(st, [l] + rest) == ParseLines(st.(pl := st.pl.(header := st.pl.header + [l])), rest)
  {
    GoodCons(st, l, rest);
  }

  lemma MediaLinesSingle(p: Variant, kind: string, rest: seq<string>)
    requires kind == "AUDIO" || kind == "SUBTITLES"
    requires GoodMedia(p, kind)
    ensures VariantLines(p) + rest == [MediaTag + Render(MediaAttrs(p))] + rest
  {
    MediaLineIs(p, kind);
  }

  lemma MediaParse(st: State, p: Variant, kind: string, rest: seq<string>)
    requires kind == "AUDIO" || kind == "SUBTITLES"
    requires GoodMedia(p, kind)
    ensures ParseLines(st, VariantLines(p) + rest)
      == ParseLines(st.(inHeader := false, pl := AddKind(st.pl, [p], kind)), rest)
  {
    MediaStep(st, p, kind);
    MediaLinesSingle(p, kind, rest);
    MediaLineIs(p, kind);
    GoodCons(st, MediaTag + Render(MediaAttrs(p)), rest);
  }

  lemma VideoLinesPair(p: Variant)
    requires GoodVideo(p)
    ensures VariantLines(p) == [StreamInfTag + Render(p.attrs), p.url]
  {
  }

  lemma VideoParse(st: State, p: Variant, rest: seq<string>)
    requires GoodVideo(p)
    ensures ParseLines(st, VariantLines(p) + rest)
      == ParseLines(st.(inHeader := false, pending := ExpectVariant([]), pl := st.pl.(video := st.pl.video + [p])), rest)
  {
    VideoSteps(st, p);
    VideoLinesPair(p);
    Chain2(st, StreamInfTag + Render(p.attrs), p.url, rest,
           st.(inHeader := false, pending := ExpectVariant(p.attrs)),
           st.(inHeader := false, pending := ExpectVariant([]), pl := st.pl.(video := st.pl.video + [p])));
  }

  lemma KeyParse(st: State, a: AttrList, rest: seq<string>)
    requires SafeAttrs(a) && |a| > 0
    ensures ParseLines(st, [KeyTag + Render(a)] + rest) == ParseLines(st.(key := a), rest)
  {
    KeyLineGood(a);
    GoodCons(st, KeyTag + Render(a), rest);
  }

  lemma SegmentTailParse(st: State, s: Segment, rest: seq<string>)
    requires GoodSegment(s) && st.key == s.key
    ensures ParseLines(st, [InfTag + s.duration + ",", s.url] + rest)
      == ParseLines(st.(inHeader := false, pending := ExpectSegment(None), key := [],
                        pl := st.pl.(segments := st.pl.segments + [s])), rest)
  {
    SegmentTailSteps(st, s);
    var st1 := st.(inHeader := false, pending := ExpectSegment(Some(s.duration + ",")));
    Chain2(st, InfTag + s.duration + ",", s.url, rest, st1,
           st1.(pending := ExpectSegment(None), key := [], pl := st.pl.(segments := st.pl.segments + [s])));
  }

  lemma SegmentLinesShape(s: Segment, rest: seq<string>)
    ensures var tail := [InfTag + s.duration + ",", s.url];
      SegmentLines(s) + rest
        == if |s.key| > 0 then [KeyTag + Render(s.key)] + (tail + rest) else tail + rest
  {
  }

  lemma KeyStateCleared(st: State, s: Segment)
    requires st.key == []
    ensures st.(key := s.key).(inHeader := false, pending := ExpectSegment(None), key := [],
                                pl := st.pl.(segments := st.pl.segments + [s]))
         == st.(inHeader := false, pending := ExpectSegment(None),
                pl := st.pl.(segments := st.pl.segments + [s]))
  {
  }

  /** A segment's lines take the parser from no pending key to the segment appended and
      again no pending key. */
  lemma SegmentParse(st: State, s: Segment, rest: seq<string>)
    requires GoodSegment(s) && st.key == []
    ensures ParseLines(st, SegmentLines(s) + rest)
      == ParseLines(st.(inHeader := false, pending := ExpectSegment(None),
                        pl := st.pl.(segments := st.pl.segments + [s])), rest)
  {
    var tail := [InfTag + s.duration + ",", s.url];
    SegmentLinesShape(s, rest);
    if |s.key| > 0 {
      KeyParse(st, s.key, tail + rest);
      SegmentTailParse(st.(key := s.key), s, rest);
      KeyStateCleared(st, s);
    } else {
      SegmentTailParse(st, s, rest);
    }
  }

  // The lines of each group are good lines.

  lemma MediaEntryGood(p: Variant, kind: string)
    requires kind == "AUDIO" || kind == "SUBTITLES"
    requires GoodMedia(p, kind)
    ensures AllGood(VariantLines(p))
  {
    MediaLineIs(p, kind);
    MediaLineGood(p, kind);
  }

  lemma {:induction false} MediaLinesGood(list: seq<Variant>, kind: string)
    requires kind == "AUDIO" || kind == "SUBTITLES"
    requires forall i :: 0 <= i < |list| ==> GoodMedia(list[i], kind)
    ensures AllGood(VariantLinesAll(list))
    decreases |list|
  {
    if |list| > 0 {
      MediaEntryGood(list[0], kind);
      MediaLinesGood(list[1..], kind);
      AllGoodAppend(VariantLines(list[0]), VariantLinesAll(list[1..]));
    }
  }

  lemma {:induction false} VideoLinesGood(list: seq<Variant>)
    requires forall i :: 0 <= i < |list| ==> GoodVideo(list[i])
    ensures AllGood(VariantLinesAll(list))
    decreases |list|
  {
    if |list| > 0 {
      assert VariantLines(list[0]) == [StreamInfTag + Render(list[0].attrs), list[0].url];
      StreamInfLineGood(list[0].attrs);
      VideoLinesGood(list[1..]);
      AllGoodAppend(VariantLines(list[0]), VariantLinesAll(list[1..]));
    }
  }

  lemma SegmentLinesGood1(s: Segment)
    requires GoodSegment(s)
    ensures AllGood(SegmentLines(s))
  {
    InfLineGood(s.duration);
    if |s.key| > 0 {
      KeyLineGood(s.key);
      assert SegmentLines(s) == [KeyTag + Render(s.key), InfTag + s.duration + ",", s.url];
    } else {
      assert SegmentLines(s) == [InfTag + s.duration + ",", s.url];
    }
  }

  lemma {:induction false} SegmentLinesGood(list: seq<Segment>)
    requires forall i :: 0 <= i < |list| ==> GoodSegment(list[i])
    ensures AllGood(SegmentLinesAll(list))
    decreases |list|
  {
    if |list| > 0 {
      SegmentLinesGood1(list[0]);
      SegmentLinesGood(list[1..]);
      AllGoodAppend(SegmentLines(list[0]), SegmentLinesAll(list[1..]));
    }
  }

  // Whole groups, by induction over the entries.

  lemma HeaderTail(h: seq<string>)
    requires GoodHeader(h) && |h| > 0
    ensures GoodHeader(h[1..]) && [h[0]] + h[1..] == h
  {
    forall i | 0 <= i < |h[1..]| ensures GoodLine(h[1..][i]) && Classify(h[1..][i]) == OtherTagLine {
      assert h[1..][i] == h[i + 1];
    }
  }

  lemma HeaderState(st: State, h: seq<string>)
    requires |h| > 0
    ensures var st1 := st.(pl := st.pl.(header := st.pl.header + [h[0]]));
      st1.(pl := st1.pl.(header := st1.pl.header + h[1..])) == st.(pl := st.pl.(header := st.pl.header + h))
  {
    assert st.pl.header + [h[0]] + h[1..] == st.pl.header + h;
  }

  lemma ParseNone(st: State)
    ensures ParseLines(st, []) == Ok(st)
  {
  }

  lemma {:induction false} ParseHeaderLines(st: State, h: seq<string>)
    requires st.inHeader && GoodHeader(h)
    ensures ParseLines(st, h) == Ok(st.(pl := st.pl.(header := st.pl.header + h)))
    decreases |h|
  {
    if |h| == 0 {
      assert st.pl.header + h == st.pl.header;
      ParseNone(st);
    } else {
      var st1 := st.(pl := st.pl.(header := st.pl.header + [h[0]]));
      HeaderTail(h);
      HeaderParse(st, h[0], h[1..]);
      ParseHeaderLines(st1, h[1..]);
      HeaderState(st, h);
    }
  }

  lemma VariantLinesAllCons(list: seq<Variant>)
    requires |list| > 0
    ensures VariantLinesAll(list) == VariantLines(list[0]) + VariantLinesAll(list[1..])
  {
  }

  lemma SegmentLinesAllCons(list: seq<Segment>)
    requires |list| > 0
    ensures SegmentLinesAll(list) == SegmentLines(list[0]) + SegmentLinesAll(list[1..])
  {
  }

  lemma AddKindStep(pl: Playlist, list: seq<Variant>, kind: string)
    requires |list| > 0
    ensures AddKind(AddKind(pl, [list[0]], kind), list[1..], kind) == AddKind(pl, list, kind)
    ensures AddKind(pl, [], kind) == pl
  {
    assert [list[0]] + list[1..] == list;
  }

  lemma MediaBase(st: State, list: seq<Variant>, kind: string)
    requires |list| == 0
    ensures ParseLines(st, VariantLinesAll(list))
      == Ok(st.(inHeader := st.inHeader && |list| == 0, pl := AddKind(st.pl, list, kind)))
  {
    assert AddKind(st.pl, list, kind) == st.pl;
    ParseNone(st);
  }

  lemma {:induction false} ParseMediaLines(st: State, list: seq<Variant>, kind: string)
    requires kind == "AUDIO" || kind == "SUBTITLES"
    requires forall i :: 0 <= i < |list| ==> GoodMedia(list[i], kind)
    ensures ParseLines(st, VariantLinesAll(list))
      == Ok(st.(inHeader := st.inHeader && |list| == 0, pl := AddKind(st.pl, list, kind)))
    decreases |list|
  {
    if |list| == 0 {
      MediaBase(st, list, kind);
    } else {
      var st1 := st.(inHeader := false, pl := AddKind(st.pl, [list[0]], kind));
      VariantLinesAllCons(list);
      MediaParse(st, list[0], kind, VariantLinesAll(list[1..]));
      ParseMediaLines(st1, list[1..], kind);
      AddKindStep(st.pl, list, kind);
    }
  }

  /** The parser's state after the video lines of `list`, read from `st`. */
  function AfterVariants(st: State, list: seq<Variant>): State {
    st.(inHeader := st.inHeader && |list| == 0,
        pending := if |list| == 0 then st.pending else ExpectVariant([]),
        pl := st.pl.(video := st.pl.video + list))
  }

  lemma VideoState(st: State, list: seq<Variant>)
    requires |list| > 0
    ensures AfterVariants(AfterVariants(st, [list[0]]), list[1..]) == AfterVariants(st, list)
  {
    assert st.pl.video + [list[0]] + list[1..] == st.pl.video + list;
  }

  lemma VideoBase(st: State, list: seq<Variant>)
    requires |list| == 0
    ensures ParseLines(st, VariantLinesAll(list)) == Ok(AfterVariants(st, list))
  {
    assert st.pl.video + list == st.pl.video;
    ParseNone(st);
  }

  lemma VideoStep(st: State, list: seq<Variant>)
    requires |list| > 0 && GoodVideo(list[0])
    requires var st1 := AfterVariants(st, [list[0]]);
      ParseLines(st1, VariantLinesAll(list[1..])) == Ok(AfterVariants(st1, list[1..]))
    ensures ParseLines(st, VariantLinesAll(list)) == Ok(AfterVariants(st, list))
  {
    VariantLinesAllCons(list);
    VideoParse(st, list[0], VariantLinesAll(list[1..]));
    VideoState(st, list);
  }

  lemma {:induction false} ParseVideoLines(st: State, list: seq<Variant>)
    requires forall i :: 0 <= i < |list| ==> GoodVideo(list[i])
    ensures ParseLines(st, VariantLinesAll(list)) == Ok(AfterVariants(st, list))
    decreases |list|
  {
    if |list| == 0 {
      VideoBase(st, list);
    } else {
      var st1 := AfterVariants(st, [list[0]]);
      assert forall i :: 0 <= i < |list[1..]| ==> list[1..][i] == list[i + 1];
      ParseVideoLines(st1, list[1..]);
      VideoStep(st, list);
    }
  }

  /** The parser's state after the lines of `list`, read from `st`. */
  function AfterSegments(st: State, list: seq<Segment>): State {
    st.(inHeader := st.inHeader && |list| == 0,
        pending := if |list| == 0 then st.pending else ExpectSegment(None),
        pl := st.pl.(segments := st.pl.segments + list))
  }

  lemma SegmentState(st: State, list: seq<Segment>)
    requires |list| > 0
    ensures AfterSegments(AfterSegments(st, [list[0]]), list[1..]) == AfterSegments(st, list)
  {
    assert st.pl.segments + [list[0]] + list[1..] == st.pl.segments + list;
  }

  lemma SegmentBase(st: State, list: seq<Segment>)
    requires |list| == 0
    ensures ParseLines(st, SegmentLinesAll(list)) == Ok(AfterSegments(st, list))
  {
    assert st.pl.segments + list == st.pl.segments;
    ParseNone(st);
  }

  lemma SegmentStep(st: State, list: seq<Segment>)
    requires |list| > 0 && st.key == [] && GoodSegment(list[0])
    requires var st1 := AfterSegments(st, [list[0]]);
      ParseLines(st1, SegmentLinesAll(list[1..])) == Ok(AfterSegments(st1, list[1..]))
    ensures ParseLines(st, SegmentLinesAll(list)) == Ok(AfterSegments(st, list))
  {
    SegmentLinesAllCons(list);
    SegmentParse(st, list[0], SegmentLinesAll(list[1..]));
    SegmentState(st, list);
  }

  lemma {:induction false} ParseSegmentLines(st: State, list: seq<Segment>)
    requires st.key == []
    requires forall i :: 0 <= i < |list| ==> GoodSegment(list[i])
    ensures ParseLines(st, SegmentLinesAll(list)) == Ok(AfterSegments(st, list))
    decreases |list|
  {
    if |list| == 0 {
      SegmentBase(st, list);
    } else {
      var st1 := AfterSegments(st, [list[0]]);
      assert forall i :: 0 <= i < |list[1..]| ==> list[1..][i] == list[i + 1];
      ParseSegmentLines(st1, list[1..]);
      SegmentStep(st, list);
    }
  }

  // ---------------------------------------------------------------------------------
  // The whole playlist.

  /** A playlist `to_string` writes and `parse` reads back unchanged: header lines are
      tags the parser keeps, every entry is written in a readable form, and the entries
      `to_string` would not write are absent (a master playlist has no segments and no
      end tag; a media playlist has no variants). */
  predicate CanonicalPlaylist(pl: Playlist) {
    GoodHeader(pl.header)
    && (forall i :: 0 <= i < |pl.audio| ==> GoodMedia(pl.audio[i], "AUDIO"))
    && (forall i :: 0 <= i < |pl.subtitles| ==> GoodMedia(pl.subtitles[i], "SUBTITLES"))
    && (forall i :: 0 <= i < |pl.video| ==> GoodVideo(pl.video[i]))
    && (forall i :: 0 <= i < |pl.segments| ==> GoodSegment(pl.segments[i]))
    && if |pl.segments| > 0 then pl.video == [] && pl.audio == [] && pl.subtitles == []
       else !pl.finished
  }

  lemma Seq3(st: State, a: seq<string>, b: seq<string>, c: seq<string>, s1: State, s2: State, s3: State)
    requires ParseLines(st, a) == Ok(s1) && ParseLines(s1, b) == Ok(s2) && ParseLines(s2, c) == Ok(s3)
    ensures ParseLines(st, a + b + c) == Ok(s3)
  {
    ParseLinesAppend(st, a + b, c);
    ParseLinesAppend(st, a, b);
  }

  lemma Seq4(st: State, a: seq<string>, b: seq<string>, c: seq<string>, d: seq<string>,
             s1: State, s2: State, s3: State, s4: State)
    requires ParseLines(st, a) == Ok(s1) && ParseLines(s1, b) == Ok(s2)
    requires ParseLines(s2, c) == Ok(s3) && ParseLines(s3, d) == Ok(s4)
    ensures ParseLines(st, a + b + c + d) == Ok(s4)
  {
    ParseLinesAppend(st, a + b + c, d);
    Seq3(st, a, b, c, s1, s2, s3);
  }

  lemma HeaderFirst(h: seq<string>)
    ensures Initial.(pl := Initial.pl.(header := Initial.pl.header + h)) == Initial.(pl := EmptyPlaylist.(header := h))
  {
    assert [] + h == h;
  }

  /** The parser's states after the header, the audio, the subtitle and the video lines
      of a master playlist. */
  function AfterHeader(pl: Playlist): State {
    Initial.(pl := EmptyPlaylist.(header := pl.header))
  }

  function AfterAudio(pl: Playlist): State {
    var s1 := AfterHeader(pl);
    s1.(inHeader := s1.inHeader && |pl.audio| == 0, pl := AddKind(s1.pl, pl.audio, "AUDIO"))
  }

  function AfterSubtitles(pl: Playlist): State {
    var s2 := AfterAudio(pl);
    s2.(inHeader := s2.inHeader && |pl.subtitles| == 0, pl := AddKind(s2.pl, pl.subtitles, "SUBTITLES"))
  }

  function AfterVideo(pl: Playlist): State {
    AfterVariants(AfterSubtitles(pl), pl.video)
  }

  lemma MasterState(pl: Playlist)
    requires |pl.segments| == 0 && !pl.finished
    ensures AfterVideo(pl).pl == pl
  {
    assert [] + pl.audio == pl.audio;
    assert [] + pl.subtitles == pl.subtitles;
    assert [] + pl.video == pl.video;
  }

  lemma MasterLines(pl: Playlist)
    requires CanonicalPlaylist(pl) && |pl.segments| == 0
    ensures ParseLines(Initial, PhysicalLines(pl)) == Ok(AfterVideo(pl))
  {
    ParseHeaderLines(Initial, pl.header);
    HeaderFirst(pl.header);
    ParseMediaLines(AfterHeader(pl), pl.audio, "AUDIO");
    ParseMediaLines(AfterAudio(pl), pl.subtitles, "SUBTITLES");
    ParseVideoLines(AfterSubtitles(pl), pl.video);
    MediaPhysical(pl);
    Seq4(Initial, pl.header, VariantLinesAll(pl.audio), VariantLinesAll(pl.subtitles), VariantLinesAll(pl.video),
         AfterHeader(pl), AfterAudio(pl), AfterSubtitles(pl), AfterVideo(pl));
  }

  lemma ParseMaster(pl: Playlist)
    requires CanonicalPlaylist(pl) && |pl.segments| == 0
    ensures ParseLines(Initial, PhysicalLines(pl)).Ok?
    ensures ParseLines(Initial, PhysicalLines(pl)).value.pl == pl
  {
    MasterLines(pl);
    MasterState(pl);
  }

  lemma MediaPlaylistPhysical(pl: Playlist)
    requires |pl.segments| > 0
    ensures PhysicalLines(pl)
      == pl.header + SegmentLinesAll(pl.segments) + (if pl.finished then [EndListTag] else [])
  {
  }

  lemma EndListParse(st: State)
    ensures ParseLines(st, [EndListTag]) == Ok(st.(pl := st.pl.(finished := true)))
  {
    assert Strip(EndListTag) == EndListTag by {
      StripStripped(EndListTag);
    }
    ParseNone(st.(pl := st.pl.(finished := true)));
  }

  /** The parser's state after the segment lines of a media playlist. */
  function AfterMediaSegments(pl: Playlist): State {
    AfterSegments(AfterHeader(pl), pl.segments)
  }

  /** The parser's state after the whole of a media playlist. */
  function AfterMedia(pl: Playlist): State {
    var s2 := AfterMediaSegments(pl);
    if pl.finished then s2.(pl := s2.pl.(finished := true)) else s2
  }

  lemma MediaSteps(pl: Playlist)
    requires GoodHeader(pl.header) && |pl.segments| > 0
    requires forall i :: 0 <= i < |pl.segments| ==> GoodSegment(pl.segments[i])
    ensures ParseLines(Initial, pl.header) == Ok(AfterHeader(pl))
    ensures ParseLines(AfterHeader(pl), SegmentLinesAll(pl.segments)) == Ok(AfterMediaSegments(pl))
    ensures ParseLines(AfterMediaSegments(pl), if pl.finished then [EndListTag] else [])
      == Ok(AfterMedia(pl))
  {
    ParseHeaderLines(Initial, pl.header);
    HeaderFirst(pl.header);
    ParseSegmentLines(AfterHeader(pl), pl.segments);
    if pl.finished {
      EndListParse(AfterMediaSegments(pl));
    } else {
      ParseNone(AfterMediaSegments(pl));
    }
  }

  lemma MediaEndState(pl: Playlist)
    requires |pl.segments| > 0 && pl.video == [] && pl.audio == [] && pl.subtitles == []
    ensures AfterMedia(pl).pl == pl
  {
    assert [] + pl.segments == pl.segments;
  }

  lemma ParseMediaPlaylist(pl: Playlist)
    requires CanonicalPlaylist(pl) && |pl.segments| > 0
    ensures ParseLines(Initial, PhysicalLines(pl)).Ok?
    ensures ParseLines(Initial, PhysicalLines(pl)).value.pl == pl
  {
    var tail: seq<string> := if pl.finished then [EndListTag] else [];
    MediaSteps(pl);
    MediaPlaylistPhysical(pl);
    Seq3(Initial, pl.header, SegmentLinesAll(pl.segments), tail,
         AfterHeader(pl), AfterMediaSegments(pl), AfterMedia(pl));
    MediaEndState(pl);
  }

  lemma PhysicalGood(pl: Playlist)
    requires CanonicalPlaylist(pl)
    ensures forall i :: 0 <= i < |PhysicalLines(pl)| ==> NoLineBreak(PhysicalLines(pl)[i])
  {
    assert AllGood(pl.header);
    if |pl.segments| > 0 {
      SegmentLinesGood(pl.segments);
      var tail: seq<string> := if pl.finished then [EndListTag] else [];
      assert AllGood(tail);
      AllGoodAppend(pl.header, SegmentLinesAll(pl.segments));
      AllGoodAppend(pl.header + SegmentLinesAll(pl.segments), tail);
      MediaPlaylistPhysical(pl);
    } else {
      MediaLinesGood(pl.audio, "AUDIO");
      MediaLinesGood(pl.subtitles, "SUBTITLES");
      VideoLinesGood(pl.video);
      AllGoodAppend(pl.header, VariantLinesAll(pl.audio));
      AllGoodAppend(pl.header + VariantLinesAll(pl.audio), VariantLinesAll(pl.subtitles));
      AllGoodAppend(pl.header + VariantLinesAll(pl.audio) + VariantLinesAll(pl.subtitles), VariantLinesAll(pl.video));
      MediaPhysical(pl);
    }
    assert AllGood(PhysicalLines(pl));
  }

  lemma ParseBlank(st: State)
    ensures ParseLines(st, [""]) == Ok(st)
  {
    assert Strip("") == "";
    ParseNone(st);
  }

  lemma EmptyOutput(pl: Playlist)
    requires CanonicalPlaylist(pl)
    requires |OutputItems(pl, AllEntries, AllEntries, AllEntries)| == 0
    ensures pl == EmptyPlaylist
  {
    if |pl.segments| == 0 {
      MediaItems(pl);
    }
  }

  lemma ParseNewline()
    ensures Parse("\n") == Ok(EmptyPlaylist)
  {
    assert SplitLines("\n") == ["", ""] by {
      assert FindBreak("\n") == 0;
      assert "\n"[1..] == "";
    }
    ParseBlank(Initial);
    assert ParseLines(Initial, ["", ""]) == ParseLines(Initial, [""]);
  }

  /** Parsing what `to_string` writes for a canonical playlist gives the playlist back. */
  lemma ParseToString(pl: Playlist)
    requires CanonicalPlaylist(pl)
    ensures Parse(ToString(pl, AllEntries, AllEntries, AllEntries)) == Ok(pl)
  {
    var items := OutputItems(pl, AllEntries, AllEntries, AllEntries);
    ToStringLines(pl);
    if |items| == 0 {
      EmptyOutput(pl);
      ParseNewline();
    } else {
      ParseWritten(pl);
    }
  }

  /** The written lines of a canonical playlist, each ended by a newline, parse back to
      the playlist. */
  lemma ParseWritten(pl: Playlist)
    requires CanonicalPlaylist(pl)
    ensures Parse(ConcatLines(PhysicalLines(pl))) == Ok(pl)
  {
    var phys := PhysicalLines(pl);
    PhysicalGood(pl);
    SplitConcat(phys);
    ParseLinesAppend(Initial, phys, [""]);
    ParsePhysical(pl);
    ParseBlank(ParseLines(Initial, phys).value);
  }

  /** The lines of a canonical playlist parse back to it. */
  lemma ParsePhysical(pl: Playlist)
    requires CanonicalPlaylist(pl)
    ensures ParseLines(Initial, PhysicalLines(pl)).Ok?
    ensures ParseLines(Initial, PhysicalLines(pl)).value.pl == pl
  {
    if |pl.segments| > 0 {
      ParseMediaPlaylist(pl);
    } else {
      ParseMaster(pl);
    }
  }
}
