# Playlist rewriting of the jd-py IPTV proxy, in Dafny

The proxy serves `GET /stream/<channel_id>`. It fetches the channel's master
HLS playlist (M3U8), picks the first line that mentions `chunks.m3u8` and
fetches that sub-playlist under the edge prefix
`https://edge01.iptv.digijadoo.net/live/<channel_id>/`. Every line of the
sub-playlist that mentions `.ts` is made absolute under the same prefix, and
the rewritten text is returned. This project models the two line-oriented
transforms at the heart of that route, `extract_chunks_url` and
`process_chunks`, and proves what they do to a playlist.

- `strings.dfy`, module `Strings`: the Python string built-ins the
  transforms use, as functions over `string`. These are `s.split(sep)` (`Split`),
  `sep.join(pieces)` (`Join`), `s.strip()` (`Strip`, over the full set of
  characters Python 3's `str.isspace` accepts) and `sub in s` (`Contains`). The
  lemmas prove that `Join` and `Split` are inverse to each other, and
  that `Strip` is characterised by "remove whitespace margins, leave no
  whitespace at either end". They also prove that a pattern without
  whitespace survives stripping and prefixing.
- `playlist.dfy`, module `Playlist`: the two transforms. `ExtractChunksUrl`
  and `ProcessChunks` are methods that follow the source's loops. The
  first returns early at the first match. The second rewrites a line
  variable and appends it to a result list that is joined at the end. Each
  method is proved equal to a specification function: `ChunksUrl`, a
  first-match search over the lines, and `Processed`, a line-wise rewrite
  followed by a join. Lemmas about these functions state the properties of
  the rewrite.

The edge prefix is a parameter `base` of both transforms, as in the source.
`BaseUrl` builds it from the channel id the way the route does. Matching is
plain substring search, not M3U8 grammar: a `#` tag line that contains `.ts`
is rewritten like a segment URI, and a line that is already absolute is
prefixed again.

Several properties need conditions on the prefix. Line-count preservation
needs a prefix without a line feed, because a prefix with one would split a
rewritten line in two. The "changes exactly when it contains `.ts`" and
non-idempotence lemmas also need a non-empty prefix that does not start
with whitespace. `WellFormedBase` collects these conditions.
`BaseUrlWellFormed` shows that the route's own prefix meets them whenever
the channel id has no line feed.

## Model

| member | source | states |
|---|---|---|
| `Strings.IsSpace` | server.py:89 | the set `str.strip()` removes includes space, tab, carriage return and line feed, and contains no visible ASCII character |
| `Strings.Strip` | server.py:80 | `str.strip()`: the result is the input minus whitespace margins and neither starts nor ends with whitespace |
| `Strings.StripUnique` | server.py:89 | any cut of whitespace margins that leaves no whitespace at either end equals what strip returns, so the contract of `Strip` fixes its result |
| `Strings.StripTrimmed` | server.py:89 | text without whitespace at either end is returned unchanged by strip |
| `Strings.Contains` | server.py:79 | `sub in s`: the empty pattern occurs everywhere, a pattern occurs only in a string at least as long, and a string contains each of its prefixes |
| `Strings.ContainsAfterStrip` | server.py:88-89 | a pattern without whitespace that occurs in a line still occurs in the stripped line |
| `Strings.ContainsAfterPrefix` | server.py:89 | putting the prefix in front of a line keeps every occurrence of a pattern |
| `Strings.NotContainsWithoutFirstChar` | server.py:88 | a pattern whose first character is absent from a line does not occur in it |
| `Strings.Split` | server.py:78 | `str.split` on one character: always at least one piece, and no piece contains the separator |
| `Strings.SplitCount` | server.py:87 | splitting gives one piece more than the text has separators |
| `Strings.Join` | server.py:91 | `"\n".join`: one separator between neighbouring pieces and `""` for no pieces (the body); its contract gives a single piece back unchanged, and `JoinSplit` and `SplitJoin` prove it the inverse of `Split` |
| `Strings.JoinSplit` | server.py:87-91 | joining the pieces of a split gives back the original text |
| `Strings.SplitJoin` | server.py:87-91 | splitting the join of a non-empty list of separator-free pieces gives back exactly those pieces |
| `Strings.JoinThree` | server.py:91 | joining three pieces puts one separator between each neighbouring pair |
| `Playlist.Lines` | server.py:78 | `text.split("\n")`: one more line than the text has line feeds, no line holds a line feed, and joining the lines with `"\n"` gives the text back |
| `Playlist.BaseUrl` | server.py:114 | the prefix is the edge host's live path, the channel id and a slash; the channel id can be read back from it |
| `Playlist.BaseUrlWellFormed` | server.py:114 | the route's edge prefix is non-empty, starts with a non-whitespace character and has no line feed when the channel id has none |
| `Playlist.FirstContaining` | server.py:78-79 | the index of the first line containing the pattern: no earlier line contains it, and the line at that index does, or the index is the line count when no line does |
| `Playlist.ChunksUrl` | server.py:77-81 | the result is absent exactly when no line of the master playlist contains `chunks.m3u8`; otherwise it is the prefix followed by the stripped first such line |
| `Playlist.ExtractChunksUrl` | server.py:77-81 | the loop with early return computes `ChunksUrl` |
| `Playlist.ChunksUrlShape` | server.py:80 | once some line contains `chunks.m3u8`, a URL is found, and it starts with the prefix and still contains `chunks.m3u8` |
| `Playlist.RewriteLine` | server.py:88-89 | a rewritten line contains `.ts` exactly when the original did, and a line with `.ts` ends up starting with the prefix |
| `Playlist.Processed` | server.py:85-91 | the lines of the input, each rewritten on its own, joined with `"\n"`; a playlist with no `.ts` line is returned exactly as it came in, for any prefix |
| `Playlist.ProcessChunks` | server.py:85-91 | the rewrite-and-append loop followed by the join computes `Processed` |
| `Playlist.RewriteAllSeparatorFree` | server.py:87-90 | no rewritten line contains a line feed when the prefix has none |
| `Playlist.ProcessedLines` | server.py:87-91 | for a prefix without a line feed, splitting the output on `"\n"` gives the input lines, each rewritten on its own, in the same order |
| `Playlist.ProcessedKeepsLineCount` | server.py:87-91 | for a prefix without a line feed, the output has exactly as many lines as the input |
| `Playlist.ProcessedKeepsPlainLines` | server.py:88-90 | for a prefix without a line feed, a line without `.ts`, tags and blank lines included, is output unchanged at the same position |
| `Playlist.ProcessedRewritesSegmentLines` | server.py:88-89 | for a prefix without a line feed, a line containing `.ts` anywhere becomes the prefix followed by the stripped line, at the same position; a trailing `\r` is removed |
| `Playlist.RewriteLineChanges` | server.py:88-90 | for a non-empty prefix that does not start with whitespace, a line is changed by the rewrite if and only if it contains `.ts` |
| `Playlist.ProcessedChangesExactlySegmentLines` | server.py:88-90 | with a well-formed prefix (non-empty, no leading whitespace, no line feed), an output line differs from its input line if and only if the input line contains `.ts` |
| `Playlist.RewriteLineTwice` | server.py:88-89 | for a non-empty prefix that does not start with whitespace, rewriting a rewritten segment line prefixes it a second time |
| `Playlist.ProcessedNotIdempotent` | server.py:88-89 | with a well-formed prefix, a second pass over the output puts the prefix in front of every segment line again, so a playlist with a segment line changes |
| `Playlist.ExampleChunksUrl` | server.py:77-81 | the master playlist `chunks.m3u8?token=abc` resolves to the prefix followed by that line |
| `Playlist.ExampleProcessed` | server.py:85-91 | `#EXTM3U`, `seg0.ts`, `#EXT-X-ENDLIST` becomes `#EXTM3U`, prefix + `seg0.ts`, `#EXT-X-ENDLIST` |

## Left out

- Token cache (`save_token`, `read_token`, server.py:23-33): file I/O and JSON on `token.json`; not part of this model.
- Login and refresh (`get_refresh_token`, `get_access_token`, server.py:37-73): HTTP calls through `requests` and JSON payload access. The only decision is to use the cached refresh token and otherwise log in, which is control flow around network calls.
- The `/stream` route (server.py:94-127): Flask plumbing, the three upstream fetches, and the mapping of failures to HTTP status codes 400, 401, 404 and 500. `BaseUrl` models its one computation, the edge prefix at server.py:114. Its test `if not chunks_url` at server.py:117 treats an absent and an empty URL alike. `ChunksUrlShape` shows that a found URL starts with the prefix, so with the route's non-empty prefix only the absent case can fail.
- Configuration and start-up (server.py:9-19, 130-131): environment-variable credentials, endpoint constants and `app.run`.
- `Strings.Strip` covers the whitespace set of Python 3's `str.isspace` as of current Unicode versions. A future Unicode change to that set is not tracked.
- `Strings.Split` models `str.split` with a one-character separator only, the only form the source uses. The no-argument form, which splits on runs of whitespace, is not modelled.
