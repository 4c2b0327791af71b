/** Facts about a whole run of `HlsPlaylist.parse`, stated against reference
    definitions that read the lines directly. */
module HlsParseFacts {
  import opened Wrappers
  import opened Text
  import opened HlsAttributes
  import opened HlsPlaylist

  /** Reference definition of the header: the unrecognised tag lines met before the
      first `EXT-X-STREAM-INF`, `EXTINF` or `EXT-X-MEDIA` line. */
  function HeaderOf(inHeader: bool, lines: seq<string>): seq<string>
    decreases |lines|
  {
    if |lines| == 0 || !inHeader then []
    else
      var line := Strip(lines[0]);
      if line == "" then HeaderOf(inHeader, lines[1..])
      else
        match Classify(line)
        case OtherTagLine => [line] + HeaderOf(true, lines[1..])
        case StreamInfLine => []
        case InfLine => []
        case MediaLine => []
        case _ => HeaderOf(true, lines[1..])
  }

  /** Once the header is closed, it never changes again. */
  lemma {:induction false} HeaderClosed(st: State, lines: seq<string>)
    requires !st.inHeader
    ensures ParseLines(st, lines).Ok? ==>
      ParseLines(st, lines).value.pl.header == st.pl.header && !ParseLines(st, lines).value.inHeader
    decreases |lines|
  {
    if |lines| > 0 {
      var line := Strip(lines[0]);
      if line == "" {
        HeaderClosed(st, lines[1..]);
      } else {
        var r := Step(st, line);
        if r.Ok? {
          HeaderClosed(r.value, lines[1..]);
        }
      }
    }
  }

  /** One step of the reference header on an open header. */
  lemma HeaderOfCons(lines: seq<string>)
    requires |lines| > 0 && Strip(lines[0]) != ""
    ensures var line := Strip(lines[0]);
      HeaderOf(true, lines) ==
        if Classify(line) == OtherTagLine then [line] + HeaderOf(true, lines[1..])
        else if Classify(line) in {StreamInfLine, InfLine, MediaLine} then []
        else HeaderOf(true, lines[1..])
  {
    var line := Strip(lines[0]);
    var k := Classify(line);
    var tail := HeaderOf(true, lines[1..]);
    var h := HeaderOf(true, lines);
    assert h == match k
      case OtherTagLine => [line] + tail
      case StreamInfLine => []
      case InfLine => []
      case MediaLine => []
      case _ => tail;
  }

  /** One turn of the parse loop on a non-empty line. */
  lemma ParseLinesCons(st: State, lines: seq<string>)
    requires |lines| > 0 && Strip(lines[0]) != ""
    ensures var r := Step(st, Strip(lines[0]));
      ParseLines(st, lines) == if r.Ok? then ParseLines(r.value, lines[1..]) else Err(r.error)
  {
  }

  /** The parser's header is exactly the reference header. */
  lemma {:induction false} ParseHeader(st: State, lines: seq<string>)
    ensures ParseLines(st, lines).Ok? ==>
      ParseLines(st, lines).value.pl.header == st.pl.header + HeaderOf(st.inHeader, lines)
    decreases |lines|, 3
  {
    if |lines| == 0 {
    } else if !st.inHeader {
      HeaderClosed(st, lines);
    } else if Strip(lines[0]) == "" {
      ParseHeader(st, lines[1..]);
    } else {
      ParseHeaderStep(st, lines);
    }
  }

  lemma {:induction false} ParseHeaderStep(st: State, lines: seq<string>)
    requires st.inHeader && |lines| > 0 && Strip(lines[0]) != ""
    ensures ParseLines(st, lines).Ok? ==>
      ParseLines(st, lines).value.pl.header == st.pl.header + HeaderOf(st.inHeader, lines)
    decreases |lines|, 0
  {
    var line := Strip(lines[0]);
    var r := Step(st, line);
    ParseLinesCons(st, lines);
    if r.Ok? {
      var st' := r.value;
      var res := ParseLines(st', lines[1..]);
      assert ParseLines(st, lines) == res;
      HeaderOfCons(lines);
      var k := Classify(line);
      if k in {StreamInfLine, InfLine, MediaLine} {
        HeaderClosed(st', lines[1..]);
      } else if k == OtherTagLine {
        OpenHeaderAppend(st, st', line, lines[1..]);
      } else {
        assert st'.inHeader && st'.pl.header == st.pl.header;
        ParseHeader(st', lines[1..]);
      }
    }
  }

  lemma {:induction false} OpenHeaderAppend(st: State, st': State, line: string, rest: seq<string>)
    requires st'.inHeader && st'.pl.header == st.pl.header + [line]
    ensures ParseLines(st', rest).Ok? ==>
      ParseLines(st', rest).value.pl.header == st.pl.header + ([line] + HeaderOf(true, rest))
    decreases |rest|, 4
  {
    ParseHeader(st', rest);
  }

  predicate HasEndList(lines: seq<string>) {
    exists i :: 0 <= i < |lines| && Strip(lines[i]) == EndListTag
  }

  lemma HasEndListCons(lines: seq<string>)
    requires |lines| > 0
    ensures HasEndList(lines) <==> Strip(lines[0]) == EndListTag || HasEndList(lines[1..])
  {
    if HasEndList(lines[1..]) {
      var i :| 0 <= i < |lines[1..]| && Strip(lines[1..][i]) == EndListTag;
      assert Strip(lines[i + 1]) == EndListTag;
    }
    if HasEndList(lines) {
      var i :| 0 <= i < |lines| && Strip(lines[i]) == EndListTag;
      if i > 0 {
        assert Strip(lines[1..][i - 1]) == EndListTag;
      }
    }
  }

  /** `finished` is set exactly when some line is `#EXT-X-ENDLIST`. */
  lemma {:induction false} ParseFinished(st: State, lines: seq<string>)
    ensures ParseLines(st, lines).Ok? ==>
      (ParseLines(st, lines).value.pl.finished <==> st.pl.finished || HasEndList(lines))
    decreases |lines|
  {
    if |lines| > 0 {
      var line := Strip(lines[0]);
      HasEndListCons(lines);
      if line == "" {
        ParseFinished(st, lines[1..]);
      } else {
        var r := Step(st, line);
        if r.Ok? {
          ParseFinished(r.value, lines[1..]);
        }
      }
    }
  }

  /** The whole-text form of the two facts above. */
  lemma ParseFacts(text: string)
    ensures Parse(text).Ok? ==>
      Parse(text).value.header == HeaderOf(true, SplitLines(text))
      && (Parse(text).value.finished <==> HasEndList(SplitLines(text)))
  {
    ParseHeader(Initial, SplitLines(text));
    ParseFinished(Initial, SplitLines(text));
  }
}
