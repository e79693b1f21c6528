/**
 * The two playlist transforms of the `/stream` route (server.py), which work
 * line by line on the text of an HTTP Live Streaming (M3U8) playlist:
 *
 *   - ExtractChunksUrl scans the master playlist for the first line that
 *     contains "chunks.m3u8" and makes it absolute under the edge prefix;
 *   - ProcessChunks makes every line of the chunks playlist that contains
 *     ".ts" absolute under the same prefix and keeps every other line as is.
 *
 * Matching is plain substring search, exactly as in the source: a `#` tag
 * line that happens to contain ".ts" is rewritten too. Both methods follow
 * the source's loops and are proved against the specification functions
 * ChunksUrl and Processed, about which the lemmas below state the
 * properties of the rewrite.
 */
module Playlist {
  import opened Strings

  datatype Option<T> = None | Some(value: T)

  /** The substring that marks the chunks sub-playlist in a master playlist. */
  const ChunksMarker: string := "chunks.m3u8"

  /** The substring that marks a media-segment line in a chunks playlist. */
  const SegmentMarker: string := ".ts"

  /** The edge host and path under which every channel's prefix lies. */
  const EdgeLive: string := "https://edge01.iptv.digijadoo.net/live/"

  /** The lines of a playlist, `text.split("\n")`: one more line than the
      text has line feeds, none of them holding a line feed, and joined with
      "\n" they give the text back. */
  function Lines(text: string): (r: seq<string>)
    ensures |r| == multiset(text)['\n'] + 1
    ensures forall k :: 0 <= k < |r| ==> '\n' !in r[k]
    ensures Join(r, '\n') == text
  {
    SplitCount(text, '\n');
    JoinSplit(text, '\n');
    Split(text, '\n')
  }

  /** The edge-host prefix every rewritten URL is put under: the live path
      of the edge host, then the channel id, then a slash. The channel id can
      be read back from the prefix, so different channels get different
      prefixes. */
  function BaseUrl(channelId: string): (r: string)
    ensures EdgeLive <= r && |r| == |EdgeLive| + |channelId| + 1
    ensures r[|r| - 1] == '/'
    ensures r[|EdgeLive|..|r| - 1] == channelId
  {
    EdgeLive + channelId + "/"
  }

  /** A prefix for which the rewrite behaves as a URL prefix should: it is not
      empty, does not start with whitespace (so `strip` keeps it) and has no
      line break (so it does not split a line in two). */
  predicate WellFormedBase(base: string)
  {
    |base| > 0 && !IsSpace(base[0]) && '\n' !in base
  }

  /** The prefix the route builds is well formed whenever the channel id has
      no line break in it. */
  lemma BaseUrlWellFormed(channelId: string)
    requires '\n' !in channelId
    ensures WellFormedBase(BaseUrl(channelId))
  {
    var base := BaseUrl(channelId);
    var p := EdgeLive;
    assert base[0] == 'h';
    forall k | 0 <= k < |base|
      ensures base[k] != '\n'
    {
      if k < |p| {
        assert base[k] == p[k];
      } else if k < |p| + |channelId| {
        assert base[k] == channelId[k - |p|];
      } else {
        assert base[k] == '/';
      }
    }
  }

  // ---------------------------------------------------------------------------
  // extract_chunks_url (server.py:77-81)
  // ---------------------------------------------------------------------------

  /** The index of the first line containing `pattern`, or `|lines|` when no
      line does. */
  function FirstContaining(lines: seq<string>, pattern: string): (k: nat)
    ensures k <= |lines|
    ensures forall j :: 0 <= j < k ==> !Contains(lines[j], pattern)
    ensures k < |lines| ==> Contains(lines[k], pattern)
  {
    if |lines| == 0 then 0
    else if Contains(lines[0], pattern) then 0
    else 1 + FirstContaining(lines[1..], pattern)
  }

  /** What extract_chunks_url returns: nothing when no line of the master
      playlist contains "chunks.m3u8"; otherwise the prefix followed by the
      first such line, stripped. */
  function ChunksUrl(master: string, base: string): (r: Option<string>)
    ensures r.None? <==> forall k :: 0 <= k < |Lines(master)| ==> !Contains(Lines(master)[k], ChunksMarker)
    ensures r.Some? ==>
      exists k :: && 0 <= k < |Lines(master)|
                  && Contains(Lines(master)[k], ChunksMarker)
                  && (forall j :: 0 <= j < k ==> !Contains(Lines(master)[j], ChunksMarker))
                  && r.value == base + Strip(Lines(master)[k])
  {
    var lines := Lines(master);
    var k := FirstContaining(lines, ChunksMarker);
    if k == |lines| then None else Some(base + Strip(lines[k]))
  }

  /** extract_chunks_url: walk the lines of the master playlist and return at
      the first one that contains "chunks.m3u8". */
  method ExtractChunksUrl(master: string, base: string) returns (r: Option<string>)
    ensures r == ChunksUrl(master, base)
  {
    var lines := Split(master, '\n');
    var i := 0;
    while i < |lines|
      invariant 0 <= i <= |lines|
      invariant forall j :: 0 <= j < i ==> !Contains(lines[j], ChunksMarker)
    {
      if Contains(lines[i], ChunksMarker) {
        assert FirstContaining(lines, ChunksMarker) == i;
        return Some(base + Strip(lines[i]));
      }
      i := i + 1;
    }
    assert FirstContaining(lines, ChunksMarker) == |lines|;
    return None;
  }

  /** As soon as some line of the master playlist contains "chunks.m3u8", a
      URL is found; it starts with the prefix and still contains the marker,
      because stripping the matched line cannot cut into "chunks.m3u8". */
  lemma ChunksUrlShape(master: string, base: string, i: nat)
    requires i < |Lines(master)| && Contains(Lines(master)[i], ChunksMarker)
    ensures ChunksUrl(master, base).Some?
    ensures base <= ChunksUrl(master, base).value
    ensures Contains(ChunksUrl(master, base).value, ChunksMarker)
  {
    var lines := Lines(master);
    var k := FirstContaining(lines, ChunksMarker);
    ContainsAfterStrip(lines[k], ChunksMarker);
    ContainsAfterPrefix(base, Strip(lines[k]), ChunksMarker);
  }

  // ---------------------------------------------------------------------------
  // process_chunks (server.py:85-91)
  // ---------------------------------------------------------------------------

  /** One line of the chunks playlist after the rewrite. A line keeps or
      lacks ".ts" as it did before, and a segment line ends up under the
      prefix. */
  function RewriteLine(line: string, base: string): (r: string)
    ensures Contains(r, SegmentMarker) <==> Contains(line, SegmentMarker)
    ensures Contains(line, SegmentMarker) ==> base <= r
  {
    if Contains(line, SegmentMarker) then
      ContainsAfterStrip(line, SegmentMarker);
      ContainsAfterPrefix(base, Strip(line), SegmentMarker);
      base + Strip(line)
    else line
  }

  /** Every line rewritten on its own, in the same order. */
  function RewriteAll(lines: seq<string>, base: string): seq<string>
  {
    seq(|lines|, k requires 0 <= k < |lines| => RewriteLine(lines[k], base))
  }

  /** What process_chunks returns: the lines, each rewritten on its own,
      joined with "\n". A playlist without any ".ts" line is returned
      exactly as it came in, because joining undoes splitting. */
  function Processed(content: string, base: string): (r: string)
    ensures (forall k :: 0 <= k < |Lines(content)| ==> !Contains(Lines(content)[k], SegmentMarker))
        ==> r == content
  {
    var lines := Lines(content);
    assert (forall k :: 0 <= k < |lines| ==> !Contains(lines[k], SegmentMarker))
        ==> RewriteAll(lines, base) == lines;
    Join(RewriteAll(lines, base), '\n')
  }

  /** process_chunks: walk the lines of the chunks playlist, rewrite each
      segment line, collect every line in a list and join the list. */
  method ProcessChunks(content: string, base: string) returns (out: string)
    ensures out == Processed(content, base)
  {
    var lines := Split(content, '\n');
    var result: seq<string> := [];
    var i := 0;
    while i < |lines|
      invariant 0 <= i <= |lines|
      invariant |result| == i
      invariant forall j :: 0 <= j < i ==> result[j] == RewriteLine(lines[j], base)
    {
      var line := lines[i];
      if Contains(line, SegmentMarker) {
        line := base + Strip(line);
      }
      result := result + [line];
      i := i + 1;
    }
    assert result == RewriteAll(lines, base);
    out := Join(result, '\n');
  }

  /** No rewritten line holds a line break when the prefix has none: the
      input lines have none (they come from a split on "\n") and stripping
      only takes characters away. */
  lemma RewriteAllSeparatorFree(lines: seq<string>, base: string)
    requires forall k :: 0 <= k < |lines| ==> '\n' !in lines[k]
    requires '\n' !in base
    ensures forall k :: 0 <= k < |lines| ==> '\n' !in RewriteAll(lines, base)[k]
  {
    forall k | 0 <= k < |lines|
      ensures '\n' !in RewriteAll(lines, base)[k]
    {
      var line := lines[k];
      var s := Strip(line);
      var lo, hi :| WhitespaceMargins(line, lo, hi) && s == line[lo..hi];
      forall j | 0 <= j < |s|
        ensures s[j] != '\n'
      {
        assert s[j] == line[lo + j];
      }
    }
  }

  /** Splitting the output on "\n" gives back the rewritten input lines one
      for one; this is the basis of every line-wise property below. */
  lemma ProcessedLines(content: string, base: string)
    requires '\n' !in base
    ensures Lines(Processed(content, base)) == RewriteAll(Lines(content), base)
  {
    var lines := Lines(content);
    RewriteAllSeparatorFree(lines, base);
    SplitJoin(RewriteAll(lines, base), '\n');
  }

  /** The output has exactly as many lines as the input. */
  lemma ProcessedKeepsLineCount(content: string, base: string)
    requires '\n' !in base
    ensures |Lines(Processed(content, base))| == |Lines(content)|
  {
    ProcessedLines(content, base);
  }

  /** A line without ".ts" (a tag, a blank line, anything else) comes through
      unchanged, at the same position. */
  lemma ProcessedKeepsPlainLines(content: string, base: string, k: nat)
    requires '\n' !in base
    requires k < |Lines(content)|
    requires !Contains(Lines(content)[k], SegmentMarker)
    ensures k < |Lines(Processed(content, base))|
    ensures Lines(Processed(content, base))[k] == Lines(content)[k]
  {
    ProcessedLines(content, base);
  }

  /** A line with ".ts" anywhere in it (a `#` tag line included) becomes the
      prefix followed by the line with its surrounding whitespace removed,
      at the same position. */
  lemma ProcessedRewritesSegmentLines(content: string, base: string, k: nat)
    requires '\n' !in base
    requires k < |Lines(content)|
    requires Contains(Lines(content)[k], SegmentMarker)
    ensures k < |Lines(Processed(content, base))|
    ensures Lines(Processed(content, base))[k] == base + Strip(Lines(content)[k])
  {
    ProcessedLines(content, base);
  }

  /** With a prefix that does not start with whitespace, a line changes
      exactly when it contains ".ts". */
  lemma RewriteLineChanges(line: string, base: string)
    requires |base| > 0 && !IsSpace(base[0])
    ensures RewriteLine(line, base) != line <==> Contains(line, SegmentMarker)
  {
    if Contains(line, SegmentMarker) {
      var s := Strip(line);
      var lo, hi :| WhitespaceMargins(line, lo, hi) && s == line[lo..hi];
      ContainsAfterStrip(line, SegmentMarker);
      // s is not empty and ends the kept part of the line; the line and the
      // rewrite differ at the last character, in length, or at the first
      // character (a whitespace margin against the prefix's first character)
      assert s != [];
      if hi < |line| {
        assert line[|line| - 1] != (base + s)[|base + s| - 1];
      } else if lo != |base| {
        assert |line| != |base + s|;
      } else {
        assert line[0] != (base + s)[0];
      }
    }
  }

  /** With a well-formed prefix, a line of the output differs from the input
      line at the same position exactly when that line contains ".ts". */
  lemma ProcessedChangesExactlySegmentLines(content: string, base: string, k: nat)
    requires WellFormedBase(base)
    requires k < |Lines(content)|
    ensures k < |Lines(Processed(content, base))|
    ensures Lines(Processed(content, base))[k] != Lines(content)[k]
        <==> Contains(Lines(content)[k], SegmentMarker)
  {
    ProcessedLines(content, base);
    RewriteLineChanges(Lines(content)[k], base);
  }

  /** A rewritten segment line still contains ".ts" and does not start or end
      with whitespace, so a second rewrite prefixes it again. */
  lemma RewriteLineTwice(line: string, base: string)
    requires |base| > 0 && !IsSpace(base[0])
    requires Contains(line, SegmentMarker)
    ensures RewriteLine(RewriteLine(line, base), base) == base + base + Strip(line)
  {
    var s := Strip(line);
    ContainsAfterStrip(line, SegmentMarker);
    ContainsAfterPrefix(base, s, SegmentMarker);
    assert s != [];
    assert (base + s)[0] == base[0];
    assert (base + s)[|base + s| - 1] == s[|s| - 1];
    StripTrimmed(base + s);
  }

  /** process_chunks is not idempotent: running it over its own output puts
      the prefix in front of every segment line a second time, so a playlist
      with at least one segment line comes out different. */
  lemma ProcessedNotIdempotent(content: string, base: string, k: nat)
    requires WellFormedBase(base)
    requires k < |Lines(content)|
    requires Contains(Lines(content)[k], SegmentMarker)
    ensures k < |Lines(Processed(Processed(content, base), base))|
    ensures Lines(Processed(Processed(content, base), base))[k] == base + base + Strip(Lines(content)[k])
    ensures Processed(Processed(content, base), base) != Processed(content, base)
  {
    var once := Processed(content, base);
    var twice := Processed(once, base);
    ProcessedLines(content, base);
    ProcessedLines(once, base);
    RewriteLineTwice(Lines(content)[k], base);
    assert Lines(once)[k] == base + Strip(Lines(content)[k]);
    assert |Lines(twice)[k]| > |Lines(once)[k]|;
  }

  // ---------------------------------------------------------------------------
  // Examples
  // ---------------------------------------------------------------------------

  /** A master playlist whose only line is "chunks.m3u8?token=abc" resolves
      to that line under the prefix (for channel 42, under
      "https://edge01.iptv.digijadoo.net/live/42/"). The text is a parameter
      fixed by the precondition, so that the verifier reasons about it
      through the lemmas rather than by unfolding `Split` on a literal. */
  lemma ExampleChunksUrl(master: string, base: string)
    requires master == "chunks.m3u8?token=abc"
    ensures ChunksUrl(master, base) == Some(base + "chunks.m3u8?token=abc")
  {
    assert Join([master], '\n') == master;
    SplitJoin([master], '\n');
    assert OccursAt(master, ChunksMarker, 0);
    assert FirstContaining([master], ChunksMarker) == 0;
    StripTrimmed(master);
  }

  /** The three-line chunks playlist "#EXTM3U", "seg0.ts", "#EXT-X-ENDLIST"
      has only its middle line rewritten. */
  lemma ExampleProcessed(content: string, base: string)
    requires content == "#EXTM3U\nseg0.ts\n#EXT-X-ENDLIST"
    ensures Processed(content, base) == "#EXTM3U" + "\n" + (base + "seg0.ts") + "\n" + "#EXT-X-ENDLIST"
  {
    var lines := ["#EXTM3U", "seg0.ts", "#EXT-X-ENDLIST"];
    JoinThree(lines[0], lines[1], lines[2], '\n');
    assert Join(lines, '\n') == content;
    SplitJoin(lines, '\n');
    NotContainsWithoutFirstChar(lines[0], SegmentMarker);
    assert OccursAt(lines[1], SegmentMarker, 4);
    NotContainsWithoutFirstChar(lines[2], SegmentMarker);
    StripTrimmed(lines[1]);
    var out := [lines[0], base + lines[1], lines[2]];
    assert RewriteAll(lines, base) == out;
    JoinThree(out[0], out[1], out[2], '\n');
  }
}
