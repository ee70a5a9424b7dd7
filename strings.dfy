/**
 * The handful of Python `str` operations the supervisor relies on:
 * `lower`, `endswith`, `startswith`, the `in` substring test, `join`,
 * `split(",")` and `strip()`.  Strings are sequences of characters.
 */
module Strings {

  /** `str.lower` on one character; only the ASCII letters A-Z are folded. */
  function LowerChar(c: char): char
  {
    if 'A' <= c <= 'Z' then (c as int + 32) as char else c
  }

  /** `str.lower`, character by character: same length, no upper-case
      letter left, and every character either kept or its letter folded. */
  function Lower(s: string): (r: string)
    ensures |r| == |s|
    ensures forall i :: 0 <= i < |r| ==> !('A' <= r[i] <= 'Z')
    ensures forall i :: 0 <= i < |s| ==>
              r[i] == s[i] || ('A' <= s[i] <= 'Z' && r[i] as int == s[i] as int + 32)
  {
    seq(|s|, i requires 0 <= i < |s| => LowerChar(s[i]))
  }

  predicate EndsWith(s: string, suffix: string)
  {
    |suffix| <= |s| && s[|s| - |suffix|..] == suffix
  }

  predicate StartsWith(s: string, prefix: string)
  {
    |prefix| <= |s| && s[..|prefix|] == prefix
  }

  /** `needle` occurs in `hay` starting at index `i`. */
  predicate OccursAt(hay: string, needle: string, i: int)
  {
    0 <= i && i + |needle| <= |hay| && hay[i..i + |needle|] == needle
  }

  /** Python's `needle in hay` for strings: a contiguous occurrence anywhere. */
  function Contains(hay: string, needle: string): (r: bool)
    ensures r <==> exists i :: OccursAt(hay, needle, i)
    decreases |hay|
  {
    if |needle| > |hay| then
      false
    else if hay[..|needle|] == needle then
      assert OccursAt(hay, needle, 0);
      true
    else
      var r := Contains(hay[1..], needle);
      OccursShift(hay, needle);
      r
  }

  /** An occurrence in `hay` at a positive index is an occurrence in `hay[1..]`, and back. */
  lemma OccursShift(hay: string, needle: string)
    requires |hay| > 0
    requires !OccursAt(hay, needle, 0)
    ensures (exists i :: OccursAt(hay, needle, i)) <==> (exists j :: OccursAt(hay[1..], needle, j))
  {
    if i :| OccursAt(hay, needle, i) {
      assert hay[1..][i - 1..i - 1 + |needle|] == hay[i..i + |needle|];
      assert OccursAt(hay[1..], needle, i - 1);
    }
    if j :| OccursAt(hay[1..], needle, j) {
      assert hay[1..][j..j + |needle|] == hay[j + 1..j + 1 + |needle|];
      assert OccursAt(hay, needle, j + 1);
    }
  }

  /** Python's `sep.join(parts)`. */
  function Join(parts: seq<string>, sep: string): string
  {
    if |parts| == 0 then ""
    else if |parts| == 1 then parts[0]
    else parts[0] + sep + Join(parts[1..], sep)
  }

  /** The lengths of the parts, added up. */
  function TotalLength(parts: seq<string>): nat
  {
    if |parts| == 0 then 0 else |parts[0]| + TotalLength(parts[1..])
  }

  /** A join holds every part and one separator per gap between parts, and
      starts with the first part. */
  lemma {:induction false} JoinLength(parts: seq<string>, sep: string)
    ensures |parts| == 0 ==> Join(parts, sep) == []
    ensures |parts| > 0 ==> |Join(parts, sep)| == TotalLength(parts) + (|parts| - 1) * |sep|
    ensures |parts| > 0 ==> StartsWith(Join(parts, sep), parts[0])
  {
    if |parts| > 1 {
      JoinLength(parts[1..], sep);
    }
  }

  /** Python's `s.split(sep)` for a one-character separator: never empty,
      no piece holds the separator, and joining the pieces gives `s` back. */
  function Split(s: string, sep: char): (r: seq<string>)
    ensures |r| >= 1
    ensures forall i :: 0 <= i < |r| ==> sep !in r[i]
    ensures Join(r, [sep]) == s
    decreases |s|
  {
    if |s| == 0 then
      [""]
    else if s[0] == sep then
      var rest := Split(s[1..], sep);
      assert s == [sep] + s[1..];
      [""] + rest
    else
      var rest := Split(s[1..], sep);
      JoinExtendFirst(rest, [sep], s[0]);
      assert s == [s[0]] + s[1..];
      [[s[0]] + rest[0]] + rest[1..]
  }

  lemma JoinExtendFirst(parts: seq<string>, sep: string, c: char)
    requires |parts| >= 1
    ensures Join([[c] + parts[0]] + parts[1..], sep) == [c] + Join(parts, sep)
  {
    var q := [[c] + parts[0]] + parts[1..];
    assert q[1..] == parts[1..];
  }

  /** The whitespace characters of Python's `str.isspace`. */
  predicate IsSpace(c: char)
  {
    c in {' ', '\t', '\n', '\r', '\U{000B}', '\U{000C}', '\U{001C}', '\U{001D}', '\U{001E}', '\U{001F}',
          '\U{0085}', '\U{00A0}', '\U{1680}', '\U{2000}', '\U{2001}', '\U{2002}', '\U{2003}', '\U{2004}',
          '\U{2005}', '\U{2006}', '\U{2007}', '\U{2008}', '\U{2009}', '\U{200A}', '\U{2028}', '\U{2029}',
          '\U{202F}', '\U{205F}', '\U{3000}'}
  }

  /** Drops leading whitespace: the result is the suffix of `s` after a run of spaces. */
  function TrimStart(s: string): (r: string)
    ensures |r| <= |s| && r == s[|s| - |r|..]
    ensures r == [] || !IsSpace(r[0])
    ensures forall k :: 0 <= k < |s| - |r| ==> IsSpace(s[k])
    decreases |s|
  {
    if |s| > 0 && IsSpace(s[0]) then TrimStart(s[1..]) else s
  }

  /** Drops trailing whitespace: the result is the prefix of `s` before a run of spaces. */
  function TrimEnd(s: string): (r: string)
    ensures |r| <= |s| && r == s[..|r|]
    ensures r == [] || !IsSpace(r[|r| - 1])
    ensures forall k :: |r| <= k < |s| ==> IsSpace(s[k])
    decreases |s|
  {
    if |s| > 0 && IsSpace(s[|s| - 1]) then TrimEnd(s[..|s| - 1]) else s
  }

  /** Python's `s.strip()`: no longer than `s`, and no whitespace left at either end. */
  function Strip(s: string): (r: string)
    ensures |r| <= |s|
    ensures r == [] || (!IsSpace(r[0]) && !IsSpace(r[|r| - 1]))
  {
    var t := TrimStart(s);
    var r := TrimEnd(t);
    assert r == [] || r[0] == t[0];
    r
  }

  /** The bounds of the slice `strip` keeps. */
  lemma StripBounds(s: string) returns (i: nat, j: nat)
    ensures i <= j <= |s| && Strip(s) == s[i..j]
    ensures forall k :: 0 <= k < i ==> IsSpace(s[k])
    ensures forall k :: j <= k < |s| ==> IsSpace(s[k])
  {
    var t := TrimStart(s);
    var r := TrimEnd(t);
    assert Strip(s) == r;
    i, j := |s| - |t|, |s| - |t| + |r|;
    SliceOfSuffix(s, t, r, i);
  }

  /** A trimmed prefix `r` of the suffix `t == s[i..]` is a slice of `s`, and
      what `t` has after `r` is what `s` has after that slice. */
  lemma SliceOfSuffix(s: string, t: string, r: string, i: nat)
    requires i <= |s| && t == s[i..] && |r| <= |t| && r == t[..|r|]
    requires forall k :: |r| <= k < |t| ==> IsSpace(t[k])
    ensures r == s[i..i + |r|]
    ensures forall k :: i + |r| <= k < |s| ==> IsSpace(s[k])
  {
    forall k | i + |r| <= k < |s| ensures IsSpace(s[k]) {
      assert s[k] == t[k - i];
    }
  }

  /** `strip` removes only whitespace, and only from the two ends. */
  lemma StripIsTrimmedSlice(s: string)
    ensures exists i, j ::
              && 0 <= i <= j <= |s| && Strip(s) == s[i..j]
              && (forall k :: 0 <= k < i ==> IsSpace(s[k]))
              && (forall k :: j <= k < |s| ==> IsSpace(s[k]))
  {
    var i, j := StripBounds(s);
  }

  /** A string with no whitespace at either end is left as it is by `strip`. */
  lemma StripClean(s: string)
    requires s == [] || (!IsSpace(s[0]) && !IsSpace(s[|s| - 1]))
    ensures Strip(s) == s
  {
  }

  lemma LowerAppend(a: string, b: string)
    ensures Lower(a + b) == Lower(a) + Lower(b)
  {
  }

  lemma LowerIdempotent(s: string)
    ensures Lower(Lower(s)) == Lower(s)
  {
  }

  /** An occurrence inside one part of a join is an occurrence in the whole join. */
  lemma {:induction false} ContainsInJoin(parts: seq<string>, sep: string, k: nat, needle: string)
    requires k < |parts|
    requires Contains(parts[k], needle)
    ensures Contains(Join(parts, sep), needle)
  {
    var i :| OccursAt(parts[k], needle, i);
    if |parts| == 1 {
    } else if k == 0 {
      var whole := parts[0] + sep + Join(parts[1..], sep);
      assert whole[i..i + |needle|] == parts[0][i..i + |needle|];
      assert OccursAt(whole, needle, i);
    } else {
      ContainsInJoin(parts[1..], sep, k - 1, needle);
      var rest := Join(parts[1..], sep);
      var j :| OccursAt(rest, needle, j);
      var pre := parts[0] + sep;
      assert (pre + rest)[|pre| + j..|pre| + j + |needle|] == rest[j..j + |needle|];
      assert OccursAt(pre + rest, needle, |pre| + j);
    }
  }

  /** Splitting a piece without separator followed by a separator peels off that piece. */
  lemma {:induction false} SplitAfterPiece(a: string, rest: string, sep: char)
    requires sep !in a
    ensures Split(a + [sep] + rest, sep) == [a] + Split(rest, sep)
    decreases |a|
  {
    var whole := a + [sep] + rest;
    if |a| == 0 {
      assert whole == [sep] + rest;
      SplitAtSeparator(rest, sep);
    } else {
      var tail := a[1..] + [sep] + rest;
      assert whole == [a[0]] + tail;
      SplitAfterPiece(a[1..], rest, sep);
      SplitAtChar(a[0], tail, sep);
      assert [a[0]] + a[1..] == a;
    }
  }

  /** Splitting a text that starts with the separator: an empty first piece. */
  lemma SplitAtSeparator(s: string, sep: char)
    ensures Split([sep] + s, sep) == [""] + Split(s, sep)
  {
    assert ([sep] + s)[1..] == s;
  }

  /** Splitting a text that starts with another character: it joins the first piece. */
  lemma SplitAtChar(c: char, s: string, sep: char)
    requires c != sep
    ensures var t := Split(s, sep);
            Split([c] + s, sep) == [[c] + t[0]] + t[1..]
  {
    assert ([c] + s)[1..] == s;
  }

  /** A string without separator splits into itself alone. */
  lemma {:induction false} SplitNoSeparator(a: string, sep: char)
    requires sep !in a
    ensures Split(a, sep) == [a]
    decreases |a|
  {
    if |a| > 0 {
      SplitNoSeparator(a[1..], sep);
      assert a == [a[0]] + a[1..];
    }
  }

  /** `split` undoes `join` when no piece contains the separator. */
  lemma {:induction false} SplitJoin(parts: seq<string>, sep: char)
    requires |parts| >= 1
    requires forall i :: 0 <= i < |parts| ==> sep !in parts[i]
    ensures Split(Join(parts, [sep]), sep) == parts
  {
    if |parts| == 1 {
      SplitNoSeparator(parts[0], sep);
    } else {
      SplitJoin(parts[1..], sep);
      SplitAfterPiece(parts[0], Join(parts[1..], [sep]), sep);
      assert [parts[0]] + parts[1..] == parts;
    }
  }
}
