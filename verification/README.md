# Stream handling core of the ArchivCZSK add-ons, modelled in Dafny

This project models the parts of the ArchivCZSK Enigma2 add-on framework that
rewrite streaming manifests and pick streams, as pure functions over immutable
data. It proves what those functions do. There are four parts.

- **HLS playlists** (`tools_archivczsk/parser/hls.py`):
  - the attribute values with their quoting;
  - the attribute tokenizer, with backslash escapes inside quoted strings;
  - the line-by-line parser of master and media playlists;
  - the serialiser `to_string`;
  - the master-playlist filter (audio description, forced foreign subtitles, one
    video variant chosen by bandwidth under an optional ceiling);
  - the cleanup of unreferenced audio and subtitle groups.

  Parsing what `to_string` writes gives the playlist back, for every playlist
  in canonical form: distinct keys of plain characters, attribute values
  without line breaks, inner quotes or backslashes (the URLs of audio and
  subtitle entries are written as `URI` values), and stripped URL lines.
- **DASH proxy** (`tools_archivczsk/http_handler/dash.py`):
  - stream keys encoded into the playlist address and decoded back;
  - the route cache, whose entries expire after 60 idle seconds;
  - the `ds` route (a base address carried base64-encoded in the path) and the
    `dsp` route (a cached DRM route with segment-type prefixes and `../`
    escaping);
  - DRM segment processing, which collects keys per pssh with a memo;
  - the manifest rewrite `handle_mpd_manifest` on an abstract element tree: the
    best Representation under the ceiling, removal of ContentProtection,
    numbering of segment templates, Czech/Slovak audio first, and BaseURL
    proxying;
  - the playlist response step.
- **YouTube stream choice** (`plugin_video_yt/youtube/YouTubeVideoUrl.py`):
  - the priority list of video itags built from the configured resolution, and
    its refresh check;
  - `try_get` on the decoded player response;
  - the HLS attribute reader;
  - the URL map of the HLS path;
  - the format filter;
  - the video and audio preference rules;
  - the stable sort of `_sort_formats`.
- **Archive menu** (`tools_archivczsk/contentprovider/extended.py`):
  - the channel label, which shows hours or days with the Slovak plural forms;
  - the list of archive days;
  - the time range an archive entry stands for.

  The clock is a parameter: the current time and the start of today, both in
  microseconds.

Collaborators the core calls but does not define are parameters of the model
(function values). These are md5, `json.dumps`/`json.loads`, `urljoin`,
`mp4decrypt`, the licence-server key fetch and the weekday/date label of an
older archive day. Python library behaviour that the core depends on is
modelled in small shared modules:
- `Text`: `strip`, `split`, `join`, `find`, `rfind`, `replace`, `lower`, `int`,
  `'%d'`;
- `Utf8`: strict UTF-8;
- `Base64`: `b64encode` and strict `b64decode`, for any alphabet;
- `Sequences`: `filter` and Python's stable `sorted`;
- `Wrappers`: `Option`/`Result`.

Where Python raises, the model returns `None` or `Err`.

Some behaviours of the source are proved as they are, not treated as errors:
- **YouTube priority list.** The list is a global that `create_priority_formats`
  only ever prepends to. When the configured resolution is not the head itag of
  one of the seven groups, the check before each extraction always fails. Every
  refresh then puts all seven groups in front again, so the list grows without
  bound (`YtFormats.RefreshGrows`).
- **Root BaseURL.** A Period's own `BaseURL` element has no child elements, so
  `e_period.find(...) or root.find(...)` treats it as false. The root's BaseURL
  is rewritten instead, once per Period, each time joined with the text it had
  so far (`MpdManifest.RootBaseRewritten`).
- **Double slash in `P_ds`.** `P_ds` puts a `/` between the decoded base address
  and the rest of the path. The proxied base address already ends in `/`, so the
  rebuilt address holds `//`.

## Model

| member | source | states |
|---|---|---|
| HlsAttributes.MakeValue | tools_archivczsk/parser/hls.py:12-18 | A value that starts with a double quote is stored without its first and last characters and marked quoted; any other value is stored as it is, unquoted. |
| HlsAttributes.ExportMakeValue | tools_archivczsk/parser/hls.py:12-30 | `export` gives the raw text back exactly when that text is unquoted or wrapped in one pair of double quotes. |
| HlsAttributes.MakeValueExport | tools_archivczsk/parser/hls.py:12-30 | A value as the constructor builds it (quoted, or unquoted without a leading double quote), exported and read back, is the same value with the same quoting. |
| HlsAttributes.Lookup | tools_archivczsk/parser/hls.py:41-51 | A value is found exactly when the key is present, and the value found is one stored under that key. |
| HlsAttributes.Get | tools_archivczsk/parser/hls.py:41-51 | `get` gives nothing exactly when the key is absent. |
| HlsAttributes.Put | tools_archivczsk/parser/hls.py:111 | Storing under an existing key keeps the key list and length; a new key is appended with its value; entries under other keys stay in place. With distinct keys, the keys stay distinct and the key then looks up the new value. |
| HlsAttributes.Remove | tools_archivczsk/parser/hls.py:38-39 | `del` leaves the key absent and the list no longer than before; without the key the list is unchanged. |
| HlsAttributes.RemoveKeeps | tools_archivczsk/parser/hls.py:38-39 | After `del`, every other key looks up what it did before, every remaining entry was already in the list, and distinct keys stay distinct. |
| HlsAttributes.Tokens | tools_archivczsk/parser/hls.py:108 | `findall` never yields an empty token. |
| HlsAttributes.CloseQuoteSkip | tools_archivczsk/parser/hls.py:108 | Inside a quoted string, text without quotes or backslashes is crossed unchanged on the way to the closing quote. |
| HlsAttributes.CloseQuoteEscape | tools_archivczsk/parser/hls.py:108 | The `\\.` alternative reads `\"` as an escaped quote, which does not close the string. |
| HlsAttributes.EscapedQuote | tools_archivczsk/parser/hls.py:108 | A quoted value holding `\"` followed by a comma is one whole token; the comma inside the quotes does not split it, and the rest of the line is tokenised after it. |
| HlsAttributes.BackslashBeforeClose | tools_archivczsk/parser/hls.py:108 | When the escape leaves no closing quote, the pattern backtracks and reads the `\` as a plain character, so `A="a\"` is still one token. |
| HlsAttributes.TokenSplit | tools_archivczsk/parser/hls.py:109-110 | The key is the text before the first `=`; the value is everything after it, later `=` signs included; with no `=` the value is empty. |
| HlsAttributes.ParseAttributes | tools_archivczsk/parser/hls.py:106-113 | The parsed attribute list has distinct keys, as the ordered dictionary does. |
| HlsAttributes.LookupPut | tools_archivczsk/parser/hls.py:111 | With distinct keys, storing under a key makes that key look up the new value and leaves every other key's lookup as it was. |
| HlsAttributes.ParseAttributesLookup | tools_archivczsk/parser/hls.py:106-113 | Each key of the parsed line looks up the value of the last token with that key, so a later repetition overwrites an earlier one; a key no token carries is absent. |
| HlsAttributes.ParseRender | tools_archivczsk/parser/hls.py:59-64 | Parsing a rendered canonical attribute list gives the same keys, values, quoting and order back. Canonical means distinct keys of plain characters, and values that are plain or quoted without inner quotes or backslashes. |
| HlsPlaylist.MakeVariant | tools_archivczsk/parser/hls.py:35-39 | The `URI` attribute is never kept among a variant's attributes; every other attribute keeps its value. |
| HlsPlaylist.MakeSegment | tools_archivczsk/parser/hls.py:69-72 | A segment's duration is the `EXTINF` payload up to, not including, its first comma; URL and key are kept. |
| HlsPlaylist.VariantLines | tools_archivczsk/parser/hls.py:56-64 | An audio or subtitle entry is written on one line and any other entry on two. |
| HlsPlaylist.SegmentLines | tools_archivczsk/parser/hls.py:74-80 | A segment with a key is written on three lines, one without a key on two. |
| HlsPlaylist.IndexIsSingleton | tools_archivczsk/parser/hls.py:255-262 | A single index selects the same entries as the one-element list holding it. |
| HlsPlaylist.Chosen | tools_archivczsk/parser/hls.py:274-284 | An index selection never yields more entries than the list, and selecting all entries (no index given) yields the list itself. |
| HlsPlaylist.ChosenMembers | tools_archivczsk/parser/hls.py:274-284 | Every entry at a selected position is in the result, and the result holds only such entries. |
| HlsPlaylist.ToString | tools_archivczsk/parser/hls.py:254-286 | The output always ends in a newline. |
| HlsPlaylist.SplitLines | tools_archivczsk/parser/hls.py:147 | There is at least one line, and no line holds a line-break character. |
| HlsPlaylist.AddMedia | tools_archivczsk/parser/hls.py:123-131 | AUDIO entries join the audio list (the URI is optional); SUBTITLES entries join the subtitle list and fail without a URI; any other type leaves the playlist unchanged. |
| HlsPlaylist.Classify | tools_archivczsk/parser/hls.py:152-176 | A line is a URL exactly when it does not start with `#`, and the end tag exactly when it equals `#EXT-X-ENDLIST`; every other kind has the tag its branch tests for. |
| HlsPlaylist.Step | tools_archivczsk/parser/hls.py:152-176 | A pending key goes to exactly the next segment and is then cleared. A URL line in variant mode becomes a video variant. A URL line with no pending `EXTINF` fails. The header grows only by undispatched tags before the first entry tag. |
| HlsParseFacts.HeaderClosed | tools_archivczsk/parser/hls.py:160-176 | Once the header is closed, no later line changes it or opens it again. |
| HlsParseFacts.ParseHeader | tools_archivczsk/parser/hls.py:141-176 | The parsed header equals an independent reference definition: the undispatched tag lines met before the first entry tag. |
| HlsParseFacts.ParseFinished | tools_archivczsk/parser/hls.py:173-174 | `finished` is set exactly when some stripped line is `#EXT-X-ENDLIST`. |
| HlsParseFacts.ParseFacts | tools_archivczsk/parser/hls.py:141-176 | Both facts hold for the parse of a whole text. |
| HlsFilter.ChooseVideo | tools_archivczsk/parser/hls.py:203-216 | Under a ceiling some variant meets, the pick is the best such variant, the earliest of equals. Under a ceiling nobody meets, it is the worst variant overall, the latest of equals. Without a ceiling, it is the best variant overall. |
| HlsFilter.FilterMaster | tools_archivczsk/parser/hls.py:194-216 | The filter fails exactly when a bandwidth does not parse, or when there is no video variant and one would be picked. Audio description tracks go and every other audio track stays. Forced foreign subtitles go and every other subtitle stays. Header and segments are untouched. The kept audio and subtitle entries are exactly the filtered lists, in their original order and each once. |
| HlsFilter.FilterKeepsOrder | tools_archivczsk/parser/hls.py:196-199 | Both list filters preserve order: filtering two halves filters the whole. |
| HlsFilter.FilterMasterKeepsOrder | tools_archivczsk/parser/hls.py:196-199 | Splitting the audio and subtitle lists anywhere, the filtered master playlist holds the kept entries of the first part, then those of the second. |
| HlsFilter.SelectionExample | tools_archivczsk/parser/hls.py:203-212 | Bandwidths 500, 1000 and 3000 pick 1000 under a ceiling of 2000 and fall back to 500 under a ceiling of 100. |
| HlsFilter.Cleanup | tools_archivczsk/parser/hls.py:220-234 | Every remaining audio or subtitle entry has a group some video variant references, and every referenced entry remains; video, header and segments are untouched. |
| HlsFilter.CleanupKeepsOrder | tools_archivczsk/parser/hls.py:233-234 | Surviving audio and subtitle entries both keep their original order: the cleanup of a list split in two is the cleanup of the first part, then of the second. |
| HlsFilter.CleanupIdempotent | tools_archivczsk/parser/hls.py:220-234 | Cleaning up twice changes nothing more than cleaning up once. |
| HlsRoundTrip.SplitConcat | tools_archivczsk/parser/hls.py:147 | Splitting newline-terminated lines gives the lines back, plus the empty text after the last newline. |
| HlsRoundTrip.ToStringLines | tools_archivczsk/parser/hls.py:264-286 | With no index filter, the output is the physical lines of the header, entries and end tag, each followed by a newline; an empty playlist gives a lone newline. |
| HlsRoundTrip.MediaStep | tools_archivczsk/parser/hls.py:59-62 | A written audio or subtitle entry is one line that the parser reads back as that same entry. |
| HlsRoundTrip.VideoSteps | tools_archivczsk/parser/hls.py:64 | A written video entry is its `EXT-X-STREAM-INF` line and URL, which the parser reads back as that same entry. |
| HlsRoundTrip.SegmentParse | tools_archivczsk/parser/hls.py:74-80 | A written segment takes the parser from no pending key to the segment appended and again no pending key. |
| HlsRoundTrip.ParseMaster | tools_archivczsk/parser/hls.py:141-176 | Parsing the lines of a canonical master playlist gives that playlist back. |
| HlsRoundTrip.ParseMediaPlaylist | tools_archivczsk/parser/hls.py:141-176 | Parsing the lines of a canonical media playlist gives that playlist back. |
| HlsRoundTrip.ParseToString | tools_archivczsk/parser/hls.py:254-286 | Parsing what `to_string` writes for a canonical playlist gives the playlist back. |
| DashStreamKey.ToDashUrl | tools_archivczsk/http_handler/dash.py:34-46 | The address is the endpoint and `/dash/` followed by the path that carries the key. |
| DashStreamKey.DecodeStreamKey | tools_archivczsk/http_handler/dash.py:134-149 | A key decoded as plain text is non-empty and not of the form `{...}`: braced text always goes to `loads`. |
| DashStreamKey.NoKeyRoundTrip | tools_archivczsk/http_handler/dash.py:39-46 | No key, and the empty string, decode back as no key. |
| DashStreamKey.PlainRoundTrip | tools_archivczsk/http_handler/dash.py:34-149 | A non-empty string that is not of the form `{...}` decodes back unchanged. |
| DashStreamKey.StructuredRoundTrip | tools_archivczsk/http_handler/dash.py:42-44 | A structure decodes back as itself whenever `loads` inverts `dumps` on it. |
| DashStreamKey.BracedPlainIsJson | tools_archivczsk/http_handler/dash.py:143-144 | A plain string of the form `{...}` is decoded as JSON instead of coming back as itself. |
| DashCache.Get | tools_archivczsk/http_handler/dash.py:107-112 | A missing key fails. A present key gives its data and marks its entry as used now, leaving every other entry as it was. |
| DashCache.Put | tools_archivczsk/http_handler/dash.py:116-130 | Expired entries are evicted, the new entry is stored with time now, and every other unexpired entry stays. |
| DashCache.PutLeavesNoExpired | tools_archivczsk/http_handler/dash.py:119-125 | Right after an insertion, no entry is expired. |
| DashCache.PutKeepsLive | tools_archivczsk/http_handler/dash.py:116-130 | An insertion drops only expired entries: every entry live at the insertion time is still there and still live. |
| DashCache.GetAfterPut | tools_archivczsk/http_handler/dash.py:107-130 | Reading back a key right after storing it gives the stored data. |
| DashCache.PutKeepsRecent | tools_archivczsk/http_handler/dash.py:121 | An entry used within the last 60 seconds survives an insertion of another key, data and all. |
| DashCache.ClockStaysAhead | tools_archivczsk/http_handler/dash.py:110-128 | With a clock that does not run backwards, lookups and insertions keep every entry's time at or before the clock. |
| DashCache.PutTwice | tools_archivczsk/http_handler/dash.py:127-130 | Of two insertions under one key, the second one wins. |
| DashRouting.Proxify | tools_archivczsk/http_handler/dash.py:199-216 | With pssh data, the route is stored under the digest of the address, and the result names that digest under `dsp`. Without pssh, the result names the base64 of the address under `ds`. Either way every live cache entry stays. |
| DashRouting.PdsRoundTrip | tools_archivczsk/http_handler/dash.py:220-226 | A request path made from a key without `/` comes back as the encoded address, then `/`, then the rest of the path. |
| DashRouting.UrlSafeRoundTrip | tools_archivczsk/http_handler/dash.py:215-226 | With the URL-safe alphabet, every address survives the trip through `P_ds`. |
| DashRouting.StandardRouteBreaks | tools_archivczsk/http_handler/dash.py:215-223 | With the standard alphabet, a class of base addresses cannot be routed: those with an ASCII pair and a `?` at a multiple of three bytes after a prefix whose key has no `/`. |
| DashRouting.ShortQueryBreaks | tools_archivczsk/http_handler/dash.py:215-223 | The address `tv?` cannot be routed: its key `dHY/` is split at the `/`. |
| DashRouting.PdsBadHead | tools_archivczsk/http_handler/dash.py:222-223 | A first path component that is no whole number of base64 groups fails to decode. |
| DashRouting.RestoreEscape | tools_archivczsk/http_handler/dash.py:451-455 | Restoring an escaped template gives it back, unless the template already spelt `dot-dot-slash` itself. |
| DashRouting.RestoreLiteralMarker | tools_archivczsk/http_handler/dash.py:317 | A template that spells `dot-dot-slash` itself comes back with `../` in that place. |
| DashRouting.EscapeNoDot | tools_archivczsk/http_handler/dash.py:451 | A text without `.` is left alone by the escaping. |
| DashRouting.PdspRequest | tools_archivczsk/http_handler/dash.py:307-317 | A successful request found its first path component in the cache and carries that key, that cached route and the second component as segment type. A component missing from the cache fails and leaves the cache unchanged. A cached one is marked as used at the request time, even when the segment type is missing. |
| DashRouting.PdspRoundTrip | tools_archivczsk/http_handler/dash.py:307-317 | A segment requested under a DRM base address made by proxying reaches the cached route, with its type and its template restored. |
| DashRouting.RedirectBase | tools_archivczsk/http_handler/dash.py:550-551 | The base is the response address up to and including its last `/`; with no `/`, index -1 drops the last character. |
| DashRouting.RedirectBaseIdempotent | tools_archivczsk/http_handler/dash.py:551 | Taking the base of a base changes nothing. |
| DashRouting.RedirectBaseSplits | tools_archivczsk/http_handler/dash.py:551 | The base is a prefix of the address, and what follows it holds no `/`. |
| DashRouting.Ceiling | tools_archivczsk/http_handler/dash.py:545-548 | With no bandwidth the ceiling is 1000000000, and an integer bandwidth is the ceiling. Only a text can be rejected, as `int` raises only there. |
| DashRouting.CeilingWritten | tools_archivczsk/http_handler/dash.py:548 | A bandwidth text holding a number in decimal, with white space around it, gives that number, as `int` reads it. |
| DashRouting.CeilingNegative | tools_archivczsk/http_handler/dash.py:548 | A text with a minus sign before the digits gives the negative number. |
| DashRouting.CeilingRejects | tools_archivczsk/http_handler/dash.py:548 | A blank text, or one whose stripped form starts with neither a digit nor a sign, is rejected, as `int` raises `ValueError` there. |
| DashRouting.PlaylistResponse | tools_archivczsk/http_handler/dash.py:541-551 | Any status but 200 gives the callback's `None`. With status 200, a rejected bandwidth raises, carrying the text, and exactly then. Otherwise status 200 gives the redirect base and the converted ceiling the manifest is rewritten with. |
| DashSegment.KeysOf | tools_archivczsk/http_handler/dash.py:281-296 | A pssh already in the memo gives its remembered keys without asking the licence server. Any other pssh is fetched and its answer remembered. |
| DashSegment.CollectKeys | tools_archivczsk/http_handler/dash.py:280-296 | The memo learns only the pssh it was asked about. |
| DashSegment.CollectKnown | tools_archivczsk/http_handler/dash.py:282-296 | With every pssh already known, the keys are the remembered ones in order, and the memo comes back unchanged. |
| DashSegment.CollectFlatten | tools_archivczsk/http_handler/dash.py:280-296 | The collected keys are the keys each pssh has against the starting memo, concatenated in pssh order. |
| DashSegment.CollectAgain | tools_archivczsk/http_handler/dash.py:280-296 | Collecting again with the memo the first run left gives the same keys and leaves that memo unchanged. |
| DashSegment.ProcessSegment | tools_archivczsk/http_handler/dash.py:270-303 | An empty type fails. An init segment (type starting with `i`) is passed through, its data stored under the rest of the type, and the memo is unchanged. Any other segment leaves the route alone and updates the memo as key collection does; it has no result exactly when no keys are found, and a result only when init data of its type was seen. |
| DashSegment.InitThenMedia | tools_archivczsk/http_handler/dash.py:276-303 | After the init segment of a type, a media segment of the matching type is decrypted against exactly that init data. |
| DashSegment.SegmentAnswer | tools_archivczsk/http_handler/dash.py:322-338 | A status of 400 or more gives 501. A failed processing gives no answer. Empty output gives 501, and non-empty output gives 200. A 200 answer carries the processed body and keeps every upstream header but `Content-Length`. It ends its headers with a `Content-Length` whose value is the body's length in decimal digits, and holds no other `Content-Length`. |
| DashSegment.Pdsp | tools_archivczsk/http_handler/dash.py:307-344 | A whole `P_dsp` request through the route cache. A key missing from the cache fails with the cache and memo unchanged. No entry is added or removed, and entries under other keys stay as they are. The requested entry is marked as used at the request time. After an upstream status below 400, it holds the route as segment processing left it, the one whose init data `process_drm_protected_segment` writes in place. The answer is the segment answer of that processing, and a processing that raises gives no answer. |
| DashSegment.PdspInit | tools_archivczsk/http_handler/dash.py:276 | An init request through the cache stores its body in the cached route under its type number, and leaves the memo unchanged. |
| DashSegment.PdspMedia | tools_archivczsk/http_handler/dash.py:296-303 | A media request whose type number has init data in the cached route, with keys found, is answered with the segment decrypted against that init data. |
| DashSegment.InitThenMediaCached | tools_archivczsk/http_handler/dash.py:270-344 | An init request and then a media request of the same type number go under the same key through the cache. The second answer is the media segment decrypted against the body of the first. |
| MpdTree.Tagged | tools_archivczsk/http_handler/dash.py:459-464 | `findall` yields only children carrying the tag, and no more elements than there are children. |
| MpdTree.FirstIndexTagged | tools_archivczsk/http_handler/dash.py:431 | `find` gives the first element of `findall`. |
| MpdTree.Namespace | tools_archivczsk/http_handler/dash.py:424 | The namespace is missing exactly when the tag has no `}` (where `index` raises), and never holds a `}` itself. |
| MpdTree.NamespaceQualified | tools_archivczsk/http_handler/dash.py:424-426 | The namespace of a qualified tag is the one it was built with. |
| MpdAdaptation.KidOf | tools_archivczsk/http_handler/dash.py:433 | A key id is found exactly when the namespaced or the plain attribute is non-empty, and the namespaced one wins when it is non-empty. |
| MpdAdaptation.Pssh | tools_archivczsk/http_handler/dash.py:439-442 | A pssh found is stripped of surrounding white space. |
| MpdAdaptation.SearchDrm | tools_archivczsk/http_handler/dash.py:428-445 | An element signals DRM exactly when it yields a key id or a pssh; the pssh list holds the one pssh found, or nothing. |
| MpdAdaptation.PruneVideo | tools_archivczsk/http_handler/dash.py:470-481 | The prune fails exactly when a bandwidth cannot be read. Otherwise only the Representation at the first maximal sort key is kept, and every other child, attribute and text stays. |
| MpdAdaptation.KeepNthUntagged | tools_archivczsk/http_handler/dash.py:480-481 | Removing all Representations but one leaves the children of every other kind as they were, in order. |
| MpdAdaptation.KeepNthTagged | tools_archivczsk/http_handler/dash.py:480-481 | Of the Representations only the chosen one remains; if there is no such one, none remains. |
| MpdAdaptation.ChosenBandwidth | tools_archivczsk/http_handler/dash.py:477 | The kept Representation has the largest bandwidth within the ceiling, the earliest of equals. When none fits, it has the smallest bandwidth, again the earliest. |
| MpdAdaptation.RewriteTemplateAttrs | tools_archivczsk/http_handler/dash.py:449-455 | A non-empty `initialization` gets the `i<n>/` prefix and a non-empty `media` the `m<n>/` prefix, both with `../` escaped. Nothing else in the template changes. |
| MpdAdaptation.RewriteTemplatesNumbers | tools_archivczsk/http_handler/dash.py:447-456 | The templates are rewritten with the numbers `n`, `n + 1`, ... in document order, and every other child stays as it was. |
| MpdAdaptation.ProtectSet | tools_archivczsk/http_handler/dash.py:490-497 | A protected set keeps its tag and attributes and has no ContentProtection child, nor has any of its Representations; the counter never goes back. |
| MpdAdaptation.ProcessSetDrm | tools_archivczsk/http_handler/dash.py:469-497 | A set that signals DRM, itself or through a remaining Representation, ends with no ContentProtection at either level. Any other set is left as the video step made it. The pssh are those the searches found. |
| MpdAdaptation.TemplateRoute | tools_archivczsk/http_handler/dash.py:310-317 | A numbered init template routes back through `P_dsp`: the route key, the segment type `i<n>` and the original template. |
| MpdManifest.AudioOrderSorted | tools_archivczsk/http_handler/dash.py:507 | The audio order is a permutation with every Czech or Slovak track before every other, each group keeping its document order. |
| MpdManifest.ReorderAudioParts | tools_archivczsk/http_handler/dash.py:499-511 | Children that are not audio sets come first, in document order, and the audio sets follow in audio order. |
| MpdManifest.Dedupe | tools_archivczsk/http_handler/dash.py:519-525 | Every pssh appears once, and the same pssh are present as before. |
| MpdManifest.ProcessPeriod | tools_archivczsk/http_handler/dash.py:464-511 | Processing a Period fails only on an unreadable bandwidth. The template counter never goes back, on success or on the failure, which carries the counter the handler keeps. |
| MpdManifest.ProcessSetsStops | tools_archivczsk/http_handler/dash.py:467-497 | A Period abandoned at an AdaptationSet whose bandwidth `int` rejects carries that set's error and exactly the counter the sets before it advanced `segment_counter` to. |
| MpdManifest.RootBaseRewritten | tools_archivczsk/http_handler/dash.py:514-521 | A Period whose BaseURL has no child elements, or that has no BaseURL, rewrites the root's BaseURL joined with the text it had so far. The proxied address uses the handler's base64 alphabet. |
| MpdManifest.BaseAppended | tools_archivczsk/http_handler/dash.py:522-529 | With no BaseURL to write, a new one carrying the document base (proxied when proxying, with the handler's base64 alphabet) is appended to the root. |
| MpdManifest.DrmRouteStored | tools_archivczsk/http_handler/dash.py:516-519 | Proxying with DRM pssh stores the route, each pssh once, under the digest of the address the BaseURL now names. |
| MpdManifest.PreferredKelvin | tools_archivczsk/http_handler/dash.py:507 | An audio set whose `lang` is `s` followed by U+212A KELVIN SIGN lowers to `sk` and counts as Slovak. |
| MpdManifest.Handle | tools_archivczsk/http_handler/dash.py:419-529 | A root tag without a namespace fails, and only then with that error, leaving the counter and cache as they were. Any other failure is an unreadable bandwidth. It carries the counter and the route cache the handler keeps after the exception: the counter has not gone back, and every route live at the handler's clock is still stored. On success the root keeps its tag and attributes and loses no children. The counter has not gone back, and every live route stays. This holds for either base64 alphabet of the proxy routes. |
| MpdManifest.HandleNoPeriods | tools_archivczsk/http_handler/dash.py:464-529 | A namespaced manifest without Periods comes back unchanged, with the handler's counter and cache untouched. |
| MpdManifest.ClearRouteProxied | tools_archivczsk/http_handler/dash.py:215 | Without DRM pssh, the proxied BaseURL is the `ds` route of the handler's name and the address's base64 key, and the cache is untouched. |
| MpdManifest.ClearRouteAsWritten | tools_archivczsk/http_handler/dash.py:215 | With the standard alphabet the source uses, the address `tv?` becomes `/<name>/ds/dHY//`, and `P_ds` cannot decode that key from the split path. |
| YtJson.Get | plugin_video_yt/youtube/YouTubeVideoUrl.py:80 | `get` gives the stored value for a present key and the default otherwise. |
| YtJson.Str | plugin_video_yt/youtube/YouTubeVideoUrl.py:338 | `str` of a string is the string itself; `str` of a non-negative number is its decimal digits. |
| YtJson.TryGetAppend | plugin_video_yt/youtube/YouTubeVideoUrl.py:77-83 | Walking a path is walking its two halves in turn. |
| YtJson.TryGetBroken | plugin_video_yt/youtube/YouTubeVideoUrl.py:79-82 | The walk gives `None` as soon as one step meets a non-object or a missing key. |
| YtJson.TryGetWhole | plugin_video_yt/youtube/YouTubeVideoUrl.py:77-83 | A result other than `None` means every step met an object holding the next key. |
| YtM3u8.MatchRendered | plugin_video_yt/youtube/YouTubeVideoUrl.py:262 | A well-formed attribute followed by a comma or by the end of the line is one match, with its key and its written value. |
| YtM3u8.ScanSkip | plugin_video_yt/youtube/YouTubeVideoUrl.py:262 | Text without `=` that does not end in a key character yields no match and does not disturb what follows. |
| YtM3u8.ScanRendered | plugin_video_yt/youtube/YouTubeVideoUrl.py:262 | Reading back well-formed attributes joined by commas stores every attribute, without quotes, a later key winning. |
| YtM3u8.MediaLine | plugin_video_yt/youtube/YouTubeVideoUrl.py:262-269 | An `#EXT-X-MEDIA:` line written from well-formed attributes reads back as exactly those attributes. |
| YtFormats.IndexOf | plugin_video_yt/youtube/YouTubeVideoUrl.py:341 | `index` gives the first position holding the itag, and raises when there is none. |
| YtFormats.Preference | plugin_video_yt/youtube/YouTubeVideoUrl.py:341 | The preference is the itag's first position in the priority list, or 100 when the itag is absent. |
| YtFormats.PriorityShape | plugin_video_yt/youtube/YouTubeVideoUrl.py:48-63 | The list starts with the configured group followed by the smaller groups, or with all seven groups when no group has that head, and ends with the list as it was before. |
| YtFormats.Refresh | plugin_video_yt/youtube/YouTubeVideoUrl.py:494-496 | The check raises exactly when the list is empty. |
| YtFormats.RefreshSettles | plugin_video_yt/youtube/YouTubeVideoUrl.py:494-496 | When the configuration names a group head, one refresh settles the list. |
| YtFormats.RefreshGrows | plugin_video_yt/youtube/YouTubeVideoUrl.py:494-496 | With any other configured value, every refresh puts all seven groups in front again. |
| YtFormats.UrlMapAppend | plugin_video_yt/youtube/YouTubeVideoUrl.py:274-279 | An ignored itag leaves the map alone. Any other itag appends one entry with the URL and the preference: the itag's position in the priority list, or 100 when it is absent. Earlier entries are kept. |
| YtFormats.UrlMapEntries | plugin_video_yt/youtube/YouTubeVideoUrl.py:274-297 | Every entry comes from a pair whose itag is not ignored and carries that itag's preference, and every such pair gives an entry. |
| YtFormats.MimeLower | plugin_video_yt/youtube/YouTubeVideoUrl.py:321-332 | `mimeType` is lowered when it is a string; anything else raises. |
| YtFormats.ByContainer | plugin_video_yt/youtube/YouTubeVideoUrl.py:321-332 | The preference raises exactly when `mimeType` is no string. It is 20 exactly when the lowered type contains the kind, and 200 exactly when it does not. |
| YtFormats.VideoPref | plugin_video_yt/youtube/YouTubeVideoUrl.py:319-322 | A preference other than 100 is kept; 100 is resolved by container as `video/mp4`. |
| YtFormats.AudioPrefShape | plugin_video_yt/youtube/YouTubeVideoUrl.py:325-333 | The original track lowers the preference by 40 when no language is searched for, and the default track by 20. Only an unchanged 100 is resolved by container. |
| YtFormats.AudioPrefPlain | plugin_video_yt/youtube/YouTubeVideoUrl.py:325-333 | Without an `audioTrack`, any preference other than 100 comes back unchanged. |
| YtFormats.AudioPrefRaises | plugin_video_yt/youtube/YouTubeVideoUrl.py:326-327 | A track that is not an object, or a display name that is not a string when it is read, makes the preference raise. |
| YtFormats.Judge | plugin_video_yt/youtube/YouTubeVideoUrl.py:338-345 | A format is skipped exactly when `_skip_fmt` holds. A kept format has a preference below 200, and a dropped one a preference of 200 or more. |
| YtFormats.SelectRaises | plugin_video_yt/youtube/YouTubeVideoUrl.py:337-345 | The loop raises exactly when some format's preference raises. |
| YtFormats.SelectKept | plugin_video_yt/youtube/YouTubeVideoUrl.py:337-345 | The kept formats are exactly those neither skipped nor given a preference of 200 or more, each with the preference it was judged to have. |
| YtFormats.SortFormatsOutput | plugin_video_yt/youtube/YouTubeVideoUrl.py:335-346 | The result is the kept formats sorted ascending by preference, as a permutation, in input order among equal preferences; none is skipped and all have a preference below 200. |
| YtFormats.DashAudioRank | plugin_video_yt/youtube/YouTubeVideoUrl.py:361-362 | In the DASH audio search, a format with the listed itag at position `i`, not skipped and without an `audioTrack`, is kept with preference `i`. |
| Archive.Shown | tools_archivczsk/contentprovider/extended.py:115-120 | Below 24 hours the label counts hours. Otherwise it counts the whole days the archive holds, at least one. |
| Archive.PluralIndex | tools_archivczsk/contentprovider/extended.py:122-127 | The first form goes exactly with 1, the second exactly with other counts below 5, and the third exactly with 5 and more. |
| Archive.SuffixExamples | tools_archivczsk/contentprovider/extended.py:104-129 | A week reads " [7 dní]", 24 and 47 hours read " [1 deň]", and 3 hours read " [3 hodiny]". |
| Archive.ReadingOf | tools_archivczsk/contentprovider/extended.py:167-175 | An archive day above 30 is read as minutes, 0 as today, and anything else as days back. |
| Archive.DayRangeShape | tools_archivczsk/contentprovider/extended.py:167-176 | Minutes and today end now. Minutes reach back that many minutes, and today starts at midnight. Days back cover one whole calendar day, up to its last microsecond. |
| Archive.ArchiveDays | tools_archivczsk/contentprovider/extended.py:142-158 | A short archive opens the programme with its length in minutes. A longer one lists one entry per whole day, entry `i` with archive day `i`, named "Dnes", "Včera", then by date. |
| Archive.ShortArchive | tools_archivczsk/contentprovider/extended.py:146-170 | A short archive of at least one hour is read as minutes, and its range reaches back exactly that many hours. |
| Archive.DayEntriesReading | tools_archivczsk/contentprovider/extended.py:149-175 | The first day entry is read as today and the next thirty as whole days back. |
| Archive.DayThirtyOneIsMinutes | tools_archivczsk/contentprovider/extended.py:149-170 | With 32 days of archive, entry 31 has archive day 31, which is read as the last 31 minutes. |
| Archive.ArchiveBackDays | tools_archivczsk/contentprovider/extended.py:149-176 | In the corrected list, every entry stands for its own day however long the archive, keeps the source's names, and agrees with the source's range for the first 31 entries. |
| Archive.ArchiveBackShort | tools_archivczsk/contentprovider/extended.py:146-170 | The corrected short archive keeps the source's range. |
| Text.Strip | tools_archivczsk/parser/hls.py:148 | The result neither starts nor ends with white space. |
| Text.SplitJoin | tools_archivczsk/parser/hls.py:109-110 | Splitting a joined list gives the list back when no part holds the separator. |
| Text.JoinSplit | tools_archivczsk/http_handler/dash.py:222-226 | Joining the parts of a split gives the text back. |
| Text.RFindChar | tools_archivczsk/http_handler/dash.py:551 | The result is the last position of the character, or -1 when it is absent. |
| Utf8.DecodeEncode | tools_archivczsk/http_handler/dash.py:45 | Decoding what was encoded gives the text back. |
| Utf8.EncodeDecode | tools_archivczsk/http_handler/dash.py:142 | Strict decoding accepts only what encoding produces: a successful decode re-encodes to the same bytes. |
| Base64.DecodeEncode | tools_archivczsk/http_handler/dash.py:45 | Decoding what was encoded gives the bytes back, for any valid alphabet. |
| Base64.DecodeLength | tools_archivczsk/http_handler/dash.py:142 | Only a whole number of four-character groups decodes. |
| Base64.StandardSlash | tools_archivczsk/http_handler/dash.py:215 | In the standard alphabet, only digit 63 is a `/`. |
| Base64.UrlSafeNoSlash | tools_archivczsk/http_handler/dash.py:215 | URL-safe text never holds a `/`. |
| Sequences.FilterAppend | tools_archivczsk/parser/hls.py:196-199 | Filtering a concatenation filters each part in place. |
| Sequences.FilterAll | tools_archivczsk/parser/hls.py:196-199 | Filtering keeps every element exactly when the predicate holds of all of them. |
| Sequences.StableByKeySorted | tools_archivczsk/http_handler/dash.py:507 | A descending stable sort on a boolean key is a permutation with every keyed element first. |
| Sequences.StableByKeyStable | tools_archivczsk/http_handler/dash.py:507 | Each class keeps its order, so sorting again changes nothing. |
| Sequences.SortByKeySorted | plugin_video_yt/youtube/YouTubeVideoUrl.py:346 | Sorting by key gives an ascending permutation. |
| Sequences.SortByKeyStable | plugin_video_yt/youtube/YouTubeVideoUrl.py:346 | The elements with any one key keep their order. |

## Left out

- Networking, Twisted request objects and response writing are not part of this
  model. Neither are `P_dash`, `get_dash_info`, `request_http_data_async*`,
  `load_http_data`, `process` and `process_playlist_urls` (which calls
  `urljoin`). The functions they call are modelled.
- XML parsing and serialisation (`ET.fromstring`, `ET.tostring`,
  `register_namespace`): the manifest is an abstract element tree.
- md5, `json.dumps`/`json.loads`, `urljoin`, `mp4decrypt` and the Widevine
  licence exchange (`get_wv_licence`, `get_content_keys`) are parameters of the
  model. `urljoin(base, None)` for a BaseURL without text is taken as
  `urljoin(base, "")`. The md5 digest is taken to hold no `/`, as a hex digest
  never does.
- Base64.Decode: strict, while Python's non-validating `b64decode` discards
  characters outside the alphabet. The model's decode succeeds on fewer inputs.
- MpdManifest.Dedupe: `list(set(pssh))` has no specified order; the model keeps
  the first of equal entries.
- The monotonic clock, `datetime.now()` and `date.today()` are parameters.
  `mktime` and the timestamp form of `archive_day_to_datetime_range` are left
  out, because they depend on the local time zone.
- Archive.DayName: the weekday and date label of days two and older comes from
  a parameter, because it depends on the clock and on `strftime`.
- The `_C('green', ...)` colouring of the channel label and the `add_dir` calls
  are left out; the model gives the label text and the entries.
- Text.Lower: lowers the ASCII capitals and U+212A KELVIN SIGN (to `k`), while
  Python lowers all of Unicode. Every lowered text is only searched for ASCII
  text: `video/mp4`, `audio/mp4`, `original`, and the language codes that
  `MpdManifest.Preferred` compares with (`cs`, `sk`, `ces`, `cze`, `slo`,
  `slk`). The only other character whose lower case holds an ASCII letter is
  U+0130, which lowers to `i` and a combining dot. The dot keeps the text from
  matching, in Python as in the model, since no pattern holds one. Every other
  non-ASCII character stays non-ASCII in both, and never matches either.
- DashRouting.Ceiling: a float bandwidth, which `int` truncates toward zero, is not
  modelled; the provider's bandwidth is taken as an integer or a text.
- DashSegment.Pdsp: the route is looked up when the request arrives and written back
  when the upstream answer has been processed. Other requests served in between (a
  `drm_cache_put` that evicts or replaces the entry) are not modelled; the model writes
  the processed route back under the key.
- Text.ParseInt: Python's `int` also accepts `_` between digits and non-ASCII
  digits; the model rejects them.
- YtJson.Str: JSON floats are not modelled. `str` of a list or an object is a
  placeholder text, which is never an itag.
- YtM3u8.Attributes: the regular expression's `$` also matches before a final
  newline; the model accepts the end of the line only. Lines come from
  `splitlines`, so they hold no newline.
- The rest of `_extract_from_m3u8` is left out: the download, the itag search
  in the URL and the pairing of audio URLs. So is the final sort of its URL map.
  The URL map is modelled from the `(itag, url)` pairs of the playlist.
- The rest of the YouTube extractor is left out: signatures, the `n`
  parameter, player responses and web requests.
- Python integers in the source are unbounded; the model uses `int` throughout.

## Findings

| source | as written | input that shows it | evidently intended | confidence | as-written member | corrected member |
|---|---|---|---|---|---|---|
| tools_archivczsk/http_handler/dash.py:215-223 | The clear base address is encoded with the standard base64 alphabet and put between the slashes of a path; `P_ds` then splits the path at every `/`. | base address `tv?`, whose key is `dHY/` | The key survives the path split, so `P_ds` gets the address back, for example by using the URL-safe alphabet of RFC 4648 section 5. | not executed | DashRouting.StandardRouteBreaks | DashRouting.UrlSafeRoundTrip |
| tools_archivczsk/contentprovider/extended.py:149-170 | Day entry `i` carries archive day `i`, but every archive day above 30 is read as minutes. | `archive_hours` = 768 (32 days): entry 31 | Entry 31 stands for the calendar day 31 days ago. | not executed | Archive.DayThirtyOneIsMinutes | Archive.ArchiveBackDays |
