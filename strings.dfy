/**
 * The Python string built-ins the playlist rewriter relies on, as value
 * functions over `string` (= seq<char>):
 *   - `s.split(sep)` for a one-character separator,
 *   - `sep.join(pieces)`,
 *   - `s.strip()` with no argument,
 *   - `sub in s`.
 * Each is given together with the properties the rewriter's reasoning needs:
 * split and join are inverse to each other, strip removes exactly the
 * whitespace margins, and substring search is stable under prefixing and
 * stripping.
 */
module Strings {

  // ---------------------------------------------------------------------------
  // Whitespace and str.strip()
  // ---------------------------------------------------------------------------

  /** The characters Python 3's `str.isspace()` accepts, which is the set
      `str.strip()` removes when called without an argument. */
  predicate IsSpace(c: char)
    // the blanks around a playlist line, carriage return included, are stripped
    ensures c == ' ' || c == '\t' || c == '\r' || c == '\n' ==> IsSpace(c)
    // no visible ASCII character (letters, digits, '.', '/', ':', '#', ...) is
    ensures ' ' < c < '\U{7F}' ==> !IsSpace(c)
  {
    || ('\t' <= c <= '\r')                // tab, line feed, vertical tab, form feed, carriage return
    || ('\U{1C}' <= c <= '\U{1F}')        // file, group, record and unit separators
    || c == ' '
    || c == '\U{85}'                      // next line
    || c == '\U{A0}'                      // no-break space
    || c == '\U{1680}'
    || ('\U{2000}' <= c <= '\U{200A}')
    || c == '\U{2028}' || c == '\U{2029}'
    || c == '\U{202F}' || c == '\U{205F}' || c == '\U{3000}'
  }

  /** `s[lo..hi]` is `s` with only whitespace cut off on either side. */
  ghost predicate WhitespaceMargins(s: string, lo: int, hi: int)
  {
    && 0 <= lo <= hi <= |s|
    && (forall k :: 0 <= k < lo ==> IsSpace(s[k]))
    && (forall k :: hi <= k < |s| ==> IsSpace(s[k]))
  }

  /** The index of the first non-whitespace character at or after `i`
      (or `|s|` if there is none). */
  function SkipSpaceForward(s: string, i: nat): (j: nat)
    requires i <= |s|
    ensures i <= j <= |s|
    ensures forall k :: i <= k < j ==> IsSpace(s[k])
    ensures j < |s| ==> !IsSpace(s[j])
    decreases |s| - i
  {
    if i < |s| && IsSpace(s[i]) then SkipSpaceForward(s, i + 1) else i
  }

  /** The index just past the last non-whitespace character of `s[lo..hi]`
      (or `lo` if there is none). */
  function SkipSpaceBackward(s: string, lo: nat, hi: nat): (j: nat)
    requires lo <= hi <= |s|
    ensures lo <= j <= hi
    ensures forall k :: j <= k < hi ==> IsSpace(s[k])
    ensures lo < j ==> !IsSpace(s[j - 1])
    decreases hi - lo
  {
    if lo < hi && IsSpace(s[hi - 1]) then SkipSpaceBackward(s, lo, hi - 1) else hi
  }

  /** Python's `s.strip()`: the result is `s` minus whitespace margins, and it
      neither starts nor ends with whitespace. These two facts determine the
      result (see StripUnique). */
  function Strip(s: string): (r: string)
    ensures exists lo, hi :: WhitespaceMargins(s, lo, hi) && r == s[lo..hi]
    ensures r == [] || (!IsSpace(r[0]) && !IsSpace(r[|r| - 1]))
  {
    var lo := SkipSpaceForward(s, 0);
    var hi := SkipSpaceBackward(s, lo, |s|);
    assert WhitespaceMargins(s, lo, hi);
    s[lo..hi]
  }

  /** Any cut of whitespace margins that leaves no whitespace at either end is
      the one strip makes. */
  lemma StripUnique(s: string, lo: int, hi: int)
    requires WhitespaceMargins(s, lo, hi)
    requires lo == hi || (!IsSpace(s[lo]) && !IsSpace(s[hi - 1]))
    ensures Strip(s) == s[lo..hi]
  {
    var r := Strip(s);
    var lo', hi' :| WhitespaceMargins(s, lo', hi') && r == s[lo'..hi'];
    if lo == hi {
      // every character of s lies in a margin, so s[lo'] cannot start r
      if r != [] { assert false; }
    } else {
      // s[lo] and s[hi - 1] are not whitespace, so they lie inside lo'..hi',
      // and s[lo'], s[hi' - 1] are not whitespace, so they lie inside lo..hi
      if r == [] { assert false; }
      if lo' < lo { assert false; }
      if lo < lo' { assert false; }
      if hi < hi' { assert false; }
      if hi' < hi { assert false; }
    }
  }

  /** Text that has no whitespace at either end is left alone by strip. */
  lemma StripTrimmed(s: string)
    requires s == [] || (!IsSpace(s[0]) && !IsSpace(s[|s| - 1]))
    ensures Strip(s) == s
  {
    StripUnique(s, 0, |s|);
    assert s[0..|s|] == s;
  }

  // ---------------------------------------------------------------------------
  // Substring search: `sub in s`
  // ---------------------------------------------------------------------------

  /** `sub` occurs in `s` starting at index `i`. */
  predicate OccursAt(s: string, sub: string, i: int)
  {
    0 <= i && i + |sub| <= |s| && s[i..i + |sub|] == sub
  }

  /** Python's `sub in s`: the empty pattern occurs in every string, a
      pattern occurs only in a string at least as long, and a string contains
      each of its prefixes. */
  predicate Contains(s: string, sub: string)
    ensures |sub| == 0 ==> Contains(s, sub)
    ensures Contains(s, sub) ==> |sub| <= |s|
    ensures sub <= s ==> Contains(s, sub)
  {
    assert sub <= s ==> OccursAt(s, sub, 0);
    exists i | 0 <= i <= |s| - |sub| :: OccursAt(s, sub, i)
  }

  /** Putting text in front of `s` keeps every occurrence in `s`, shifted. */
  lemma ContainsAfterPrefix(p: string, s: string, sub: string)
    requires Contains(s, sub)
    ensures Contains(p + s, sub)
  {
    var i :| 0 <= i <= |s| - |sub| && OccursAt(s, sub, i);
    assert (p + s)[|p| + i..|p| + i + |sub|] == s[i..i + |sub|];
    assert OccursAt(p + s, sub, |p| + i);
  }

  /** A pattern whose first character does not appear in `s` does not occur
      in `s`. */
  lemma NotContainsWithoutFirstChar(s: string, sub: string)
    requires |sub| > 0 && sub[0] !in s
    ensures !Contains(s, sub)
  {
    forall i | 0 <= i <= |s| - |sub|
      ensures !OccursAt(s, sub, i)
    {
      assert s[i..i + |sub|][0] == s[i];
    }
  }

  /** An occurrence that lies inside `s[lo..hi]` is an occurrence in that
      slice, shifted by `lo`. */
  lemma OccursInSlice(s: string, sub: string, lo: int, hi: int, i: int)
    requires 0 <= lo <= i && i + |sub| <= hi <= |s|
    requires OccursAt(s, sub, i)
    ensures OccursAt(s[lo..hi], sub, i - lo)
  {
    var inSlice, inWhole := s[lo..hi][i - lo..i - lo + |sub|], s[i..i + |sub|];
    forall j | 0 <= j < |sub|
      ensures inSlice[j] == inWhole[j]
    {
      assert s[lo..hi][i - lo + j] == s[i + j];
    }
    assert inSlice == inWhole;
  }

  /** Stripping never destroys an occurrence of a pattern that has no
      whitespace in it: the pattern lies inside the kept part. */
  lemma ContainsAfterStrip(s: string, sub: string)
    requires forall k :: 0 <= k < |sub| ==> !IsSpace(sub[k])
    requires Contains(s, sub)
    ensures Contains(Strip(s), sub)
  {
    var r := Strip(s);
    var lo, hi :| WhitespaceMargins(s, lo, hi) && r == s[lo..hi];
    var i :| 0 <= i <= |s| - |sub| && OccursAt(s, sub, i);
    if |sub| == 0 {
      assert OccursAt(r, sub, 0);
    } else {
      assert s[i] == sub[0];
      assert s[i + |sub| - 1] == sub[|sub| - 1];
      assert lo <= i;
      assert i + |sub| <= hi;
      OccursInSlice(s, sub, lo, hi, i);
    }
  }

  // ---------------------------------------------------------------------------
  // str.split(sep) and sep.join(pieces)
  // ---------------------------------------------------------------------------

  /** Python's `s.split(sep)` for a one-character separator: the pieces
      between consecutive separators, in order. There is always at least one
      piece (the empty string splits into `[""]`), and no piece holds the
      separator. */
  function Split(s: string, sep: char): (r: seq<string>)
    ensures |r| >= 1
    ensures forall k :: 0 <= k < |r| ==> sep !in r[k]
    decreases |s|
  {
    if |s| == 0 then [""]
    else
      var rest := Split(s[1..], sep);
      if s[0] == sep then [""] + rest
      else [[s[0]] + rest[0]] + rest[1..]
  }

  /** Splitting yields one piece more than there are separators. */
  lemma {:induction false} SplitCount(s: string, sep: char)
    ensures |Split(s, sep)| == multiset(s)[sep] + 1
    decreases |s|
  {
    if |s| > 0 {
      SplitCount(s[1..], sep);
      assert s == [s[0]] + s[1..];
      assert multiset(s) == multiset([s[0]]) + multiset(s[1..]);
    }
  }

  /** Python's `sep.join(pieces)`: the pieces with one separator between
      each neighbouring pair. */
  function Join(pieces: seq<string>, sep: char): (r: string)
    ensures |pieces| == 1 ==> r == pieces[0]
    decreases |pieces|
  {
    if |pieces| == 0 then ""
    else if |pieces| == 1 then pieces[0]
    else pieces[0] + [sep] + Join(pieces[1..], sep)
  }

  /** Joining the pieces of a split gives back the original text. */
  lemma {:induction false} JoinSplit(s: string, sep: char)
    ensures Join(Split(s, sep), sep) == s
    decreases |s|
  {
    if |s| > 0 {
      var rest := Split(s[1..], sep);
      JoinSplit(s[1..], sep);
      if s[0] == sep {
        assert Split(s, sep) == [""] + rest;
        assert ([""] + rest)[1..] == rest;
        assert Join([""] + rest, sep) == "" + [sep] + Join(rest, sep);
        assert s == [sep] + s[1..];
      } else {
        var pieces := [[s[0]] + rest[0]] + rest[1..];
        assert Split(s, sep) == pieces;
        if |rest| == 1 {
          assert Join(rest, sep) == rest[0];
        } else {
          assert pieces[1..] == rest[1..];
          assert Join(rest, sep) == rest[0] + [sep] + Join(rest[1..], sep);
        }
        assert s == [s[0]] + s[1..];
      }
    }
  }

  /** Splitting text that starts with a separator-free piece `a`: `a` is
      glued to the first piece of the rest. */
  lemma {:induction false} SplitAfterPiece(a: string, t: string, sep: char)
    requires sep !in a
    ensures Split(a + t, sep) == [a + Split(t, sep)[0]] + Split(t, sep)[1..]
    decreases |a|
  {
    if |a| > 0 {
      SplitAfterPiece(a[1..], t, sep);
      assert (a + t)[1..] == a[1..] + t;
      assert (a + t)[0] == a[0];
      assert [a[0]] + (a[1..] + Split(t, sep)[0]) == a + Split(t, sep)[0];
    } else {
      assert a + t == t && a + Split(t, sep)[0] == Split(t, sep)[0];
      assert Split(t, sep) == [Split(t, sep)[0]] + Split(t, sep)[1..];
    }
  }

  /** Splitting the join of separator-free pieces gives back the pieces:
      so joined output has exactly as many lines as pieces were joined. */
  lemma {:induction false} SplitJoin(pieces: seq<string>, sep: char)
    requires |pieces| >= 1
    requires forall k :: 0 <= k < |pieces| ==> sep !in pieces[k]
    ensures Split(Join(pieces, sep), sep) == pieces
    decreases |pieces|
  {
    if |pieces| == 1 {
      SplitAfterPiece(pieces[0], "", sep);
      assert pieces[0] + "" == pieces[0];
    } else {
      var tail := pieces[1..];
      SplitJoin(tail, sep);
      var t := [sep] + Join(tail, sep);
      assert Split(t, sep) == [""] + tail by {
        assert t[1..] == Join(tail, sep);
      }
      SplitAfterPiece(pieces[0], t, sep);
      assert Join(pieces, sep) == pieces[0] + t;
      assert pieces[0] + "" == pieces[0];
      assert pieces == [pieces[0]] + tail;
    }
  }

  /** Joining three pieces puts the separator between each neighbouring pair. */
  lemma JoinThree(a: string, b: string, c: string, sep: char)
    ensures Join([a, b, c], sep) == a + [sep] + b + [sep] + c
  {
    assert [a, b, c][1..] == [b, c];
    assert [b, c][1..] == [c];
  }
}
