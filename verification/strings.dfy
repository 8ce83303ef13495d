/**
  Text operations of Rust's `str` that the core relies on.

  A Rust string is modelled by its UTF-8 encoding, one `char` per byte, so
  `|s|` is the Rust `len()` and every byte offset is a sequence index.
  Case folding and trimming act on the ASCII range only.
*/
module Strings {
  import opened Errors

  /** The one-byte characters for which `char::is_whitespace` holds. */
  predicate IsWhitespace(c: char) {
    c == ' ' || c == '\t' || c == '\n' || c == '\r' || c == '\U{000B}' || c == '\U{000C}'
  }

  /** `str::trim_start`. */
  function TrimStart(s: string): (r: string)
    ensures |r| <= |s| && r == s[|s| - |r|..]
    ensures r != [] ==> !IsWhitespace(r[0])
    ensures forall i :: 0 <= i < |s| - |r| ==> IsWhitespace(s[i])
  {
    if s != [] && IsWhitespace(s[0]) then TrimStart(s[1..]) else s
  }

  /** `str::trim_end`. */
  function TrimEnd(s: string): (r: string)
    ensures |r| <= |s| && r == s[..|r|]
    ensures r != [] ==> !IsWhitespace(r[|r| - 1])
    ensures forall i :: |r| <= i < |s| ==> IsWhitespace(s[i])
  {
    if s != [] && IsWhitespace(s[|s| - 1]) then TrimEnd(s[..|s| - 1]) else s
  }

  /** `str::trim`. */
  function Trim(s: string): (r: string)
    ensures |r| <= |s|
    ensures r != [] ==> !IsWhitespace(r[0]) && !IsWhitespace(r[|r| - 1])
  {
    TrimEnd(TrimStart(s))
  }

  /** Trimming leaves nothing exactly when every byte is whitespace. */
  lemma TrimEmptyIff(s: string)
    ensures Trim(s) == [] <==> forall i :: 0 <= i < |s| ==> IsWhitespace(s[i])
  {
    var t := TrimStart(s);
    if Trim(s) != [] {
      var r := Trim(s);
      assert r[0] == t[0] == s[|s| - |t|];
    }
  }

  /** Trimming keeps a slice of the input, so it adds no character. */
  lemma TrimKeepsAbsent(s: string, c: char)
    requires c !in s
    ensures c !in Trim(s)
  {
    var t := TrimStart(s);
    SliceKeepsAbsent(s, c, |s| - |t|, |s|);
    SliceKeepsAbsent(t, c, 0, |TrimEnd(t)|);
  }

  /** A byte absent from a string is absent from each of its slices. */
  lemma SliceKeepsAbsent(s: string, c: char, i: nat, j: nat)
    requires i <= j <= |s| && c !in s
    ensures c !in s[i..j]
  {
  }

  predicate StartsWith(s: string, p: string) {
    |p| <= |s| && s[..|p|] == p
  }

  predicate EndsWith(s: string, p: string) {
    |p| <= |s| && s[|s| - |p|..] == p
  }

  /** `str::contains` with a string pattern. */
  predicate Contains(s: string, p: string)
    decreases |s|
  {
    StartsWith(s, p) || (s != [] && Contains(s[1..], p))
  }

  /** A string contains every string it is built around. */
  lemma {:induction false} ContainsMiddle(a: string, p: string, b: string)
    ensures Contains(a + p + b, p)
    decreases |a|
  {
    if a == [] {
      assert (a + p + b)[..|p|] == p;
    } else {
      assert (a + p + b)[1..] == a[1..] + p + b;
      ContainsMiddle(a[1..], p, b);
    }
  }

  function ToLowerChar(c: char): char {
    if 'A' <= c <= 'Z' then (c as int + 32) as char else c
  }

  /** `str::to_lowercase` on the ASCII range. */
  function ToLower(s: string): (r: string)
    ensures |r| == |s|
    ensures forall i :: 0 <= i < |s| ==> r[i] == ToLowerChar(s[i])
  {
    seq(|s|, i requires 0 <= i < |s| => ToLowerChar(s[i]))
  }

  /** `str::replace`: every non-overlapping occurrence of `p`, scanned from
      the left, is replaced by `v`. */
  function Replace(s: string, p: string, v: string): string
    requires p != []
    decreases |s|
  {
    if |s| < |p| then s
    else if s[..|p|] == p then v + Replace(s[|p|..], p, v)
    else [s[0]] + Replace(s[1..], p, v)
  }

  /** Every character of a replacement result comes from the input or from
      the replacement text. */
  lemma {:induction false} ReplaceKeepsAbsent(s: string, p: string, v: string, c: char)
    requires p != [] && c !in s && c !in v
    ensures c !in Replace(s, p, v)
    decreases |s|
  {
    if |s| < |p| {
    } else if s[..|p|] == p {
      ReplaceKeepsAbsent(s[|p|..], p, v, c);
    } else {
      ReplaceKeepsAbsent(s[1..], p, v, c);
    }
  }

  /** Replacing a one-character pattern by a text without it removes every
      occurrence. */
  lemma {:induction false} ReplaceRemovesChar(s: string, c: char, v: string)
    requires c !in v
    ensures c !in Replace(s, [c], v)
    decreases |s|
  {
    if |s| < 1 {
    } else if s[..1] == [c] {
      ReplaceRemovesChar(s[1..], c, v);
    } else {
      assert s[0] != c by { assert s[..1] == [s[0]]; }
      ReplaceRemovesChar(s[1..], c, v);
    }
  }

  /** A prefix holding no character that could start the pattern passes
      through a replacement untouched. */
  lemma {:induction false} ReplaceSkipsPrefix(a: string, b: string, p: string, v: string)
    requires p != [] && p[0] !in a
    ensures Replace(a + b, p, v) == a + Replace(b, p, v)
    decreases |a|
  {
    if a != [] {
      var s := a + b;
      if |s| < |p| {
        ReplaceShort(b, p, v);
      } else {
        assert s[..|p|] != p by { assert s[0] == a[0]; }
        assert s[1..] == a[1..] + b;
        ReplaceSkipsPrefix(a[1..], b, p, v);
        assert [a[0]] + a[1..] == a;
      }
    } else {
      assert a + b == b;
    }
  }

  lemma ReplaceShort(s: string, p: string, v: string)
    requires p != [] && |s| < |p|
    ensures Replace(s, p, v) == s
  {
  }

  /** An occurrence of the pattern at the front is replaced. */
  lemma ReplaceAtFront(p: string, b: string, v: string)
    requires p != []
    ensures Replace(p + b, p, v) == v + Replace(b, p, v)
  {
    assert (p + b)[..|p|] == p;
    assert (p + b)[|p|..] == b;
  }

  /** A text holding no character that starts the pattern is left
      unchanged. */
  lemma ReplaceAbsent(s: string, p: string, v: string)
    requires p != [] && p[0] !in s
    ensures Replace(s, p, v) == s
  {
    ReplaceSkipsPrefix(s, [], p, v);
    assert s + [] == s;
  }

  /** Replacing the separator of a join whose parts cannot start the
      pattern re-joins the parts with the replacement. */
  lemma {:induction false} ReplaceJoin(parts: seq<string>, p: string, v: string)
    requires p != [] && |parts| >= 1
    requires forall i :: 0 <= i < |parts| ==> p[0] !in parts[i]
    ensures Replace(Join(parts, p), p, v) == Join(parts, v)
    decreases |parts|
  {
    if |parts| == 1 {
      ReplaceAbsent(parts[0], p, v);
    } else {
      var rest := Join(parts[1..], p);
      assert Join(parts, p) == parts[0] + (p + rest);
      ReplaceSkipsPrefix(parts[0], p + rest, p, v);
      ReplaceAtFront(p, rest, v);
      ReplaceJoin(parts[1..], p, v);
    }
  }

  /** A character not followed by the pattern's second character does not
      start an occurrence of a two-character pattern. */
  lemma ReplaceSingleLead(c: char, b: string, p: string, v: string)
    requires |p| == 2 && (b == [] || b[0] != p[1])
    ensures Replace([c] + b, p, v) == [c] + Replace(b, p, v)
  {
    var s := [c] + b;
    assert s[1..] == b;
    if |s| >= 2 {
      assert s[..2][1] == b[0];
    }
  }

  /** A text with no two adjacent copies of `c`. */
  predicate NoDouble(s: string, c: char) {
    forall i :: 0 <= i < |s| - 1 ==> !(s[i] == c && s[i + 1] == c)
  }

  /** Without two adjacent copies of `c`, replacing "cc" changes nothing. */
  lemma {:induction false} ReplaceNoDouble(s: string, c: char, v: string)
    requires NoDouble(s, c)
    ensures Replace(s, [c, c], v) == s
    decreases |s|
  {
    if |s| >= 2 {
      assert s[..2] != [c, c] by { assert !(s[0] == c && s[1] == c); }
      assert NoDouble(s[1..], c) by {
        forall i | 0 <= i < |s[1..]| - 1
          ensures !(s[1..][i] == c && s[1..][i + 1] == c)
        {
          assert s[1..][i] == s[i + 1] && s[1..][i + 1] == s[i + 2];
        }
      }
      ReplaceNoDouble(s[1..], c, v);
      assert [s[0]] + s[1..] == s;
    }
  }

  /** Leading whitespace before a text that does not start with
      whitespace is what `trim_start` removes. */
  lemma TrimStartAfter(a: string, u: string)
    requires forall i :: 0 <= i < |a| ==> IsWhitespace(a[i])
    requires u != [] && !IsWhitespace(u[0])
    ensures TrimStart(a + u) == u
  {
    var s := a + u;
    var r := TrimStart(s);
    assert r == s[|a|..];
  }

  /** Trailing whitespace after a text that does not end with whitespace
      is what `trim_end` removes. */
  lemma TrimEndBefore(u: string, b: string)
    requires forall i :: 0 <= i < |b| ==> IsWhitespace(b[i])
    requires u != [] && !IsWhitespace(u[|u| - 1])
    ensures TrimEnd(u + b) == u
  {
    var s := u + b;
    var r := TrimEnd(s);
    assert r == s[..|u|];
  }

  /** `trim` removes exactly the whitespace around a trimmed text. */
  lemma TrimSurrounded(a: string, t: string, b: string)
    requires forall i :: 0 <= i < |a| ==> IsWhitespace(a[i])
    requires forall i :: 0 <= i < |b| ==> IsWhitespace(b[i])
    requires t != [] && !IsWhitespace(t[0]) && !IsWhitespace(t[|t| - 1])
    ensures Trim(a + t + b) == t
  {
    assert a + t + b == a + (t + b);
    TrimStartAfter(a, t + b);
    TrimEndBefore(t, b);
  }

  /** Text whose ends are not whitespace is its own trim. */
  lemma TrimOfTrimmed(s: string)
    requires s != [] && !IsWhitespace(s[0]) && !IsWhitespace(s[|s| - 1])
    ensures Trim(s) == s
  {
    assert TrimStart(s) == s;
  }

  /** `str::split` on a single character; it always yields at least one piece. */
  function Split(s: string, c: char): (r: seq<string>)
    ensures |r| >= 1
    ensures forall i :: 0 <= i < |r| ==> c !in r[i]
    decreases |s|
  {
    if s == [] then [[]]
    else
      var rest := Split(s[1..], c);
      if s[0] == c then [[]] + rest else [[s[0]] + rest[0]] + rest[1..]
  }

  /** A separator that the first piece lacks ends that piece. */
  lemma {:induction false} SplitAt(a: string, c: char, b: string)
    requires c !in a
    ensures Split(a + [c] + b, c) == [a] + Split(b, c)
    decreases |a|
  {
    if a == [] {
      assert (a + [c] + b)[1..] == b;
    } else {
      assert (a + [c] + b)[1..] == a[1..] + [c] + b;
      SplitAt(a[1..], c, b);
      assert [a[0]] + a[1..] == a;
    }
  }

  /** Splitting at a separator splits each side on its own. */
  lemma {:induction false} SplitConcat(a: string, c: char, b: string)
    ensures Split(a + [c] + b, c) == Split(a, c) + Split(b, c)
    decreases |a|
  {
    if a == [] {
      assert (a + [c] + b)[1..] == b;
    } else {
      assert (a + [c] + b)[1..] == a[1..] + [c] + b;
      SplitConcat(a[1..], c, b);
    }
  }

  /** Text without the separator is one piece. */
  lemma {:induction false} SplitWhole(a: string, c: char)
    requires c !in a
    ensures Split(a, c) == [a]
    decreases |a|
  {
    if a != [] {
      SplitWhole(a[1..], c);
      assert [a[0]] + a[1..] == a;
    }
  }

  /** The index of the first `c` in `s` (`str::find` with a character). */
  function IndexOf(s: string, c: char): (r: Option<nat>)
    ensures r.None? <==> c !in s
    ensures r.Some? ==> r.value < |s| && s[r.value] == c && c !in s[..r.value]
  {
    if s == [] then None
    else if s[0] == c then Some(0)
    else
      var r := IndexOf(s[1..], c);
      if r.None? then None
      else
        assert s[..r.value + 1] == [s[0]] + s[1..][..r.value];
        Some(r.value + 1)
  }

  /** The start of the first occurrence of `p` in `s` (`str::find` with a
      string pattern). */
  function FindPattern(s: string, p: string): (r: Option<nat>)
    requires p != []
    ensures r.Some? ==> r.value + |p| <= |s| && s[r.value..r.value + |p|] == p
    ensures r.Some? ==> forall j :: 0 <= j < r.value ==> !StartsWith(s[j..], p)
    ensures r.None? ==> forall j :: 0 <= j <= |s| ==> !StartsWith(s[j..], p)
    decreases |s|
  {
    if |s| < |p| then
      assert forall j :: 0 <= j <= |s| ==> |s[j..]| < |p|;
      None
    else if s[..|p|] == p then Some(0)
    else
      var r := FindPattern(s[1..], p);
      assert forall j :: 1 <= j <= |s| ==> s[j..] == s[1..][j - 1..];
      if r.None? then None
      else
        assert s[1..][r.value..r.value + |p|] == s[r.value + 1..r.value + 1 + |p|];
        Some(r.value + 1)
  }

  /** The first `c` after a prefix without one is at the prefix's end. */
  lemma {:induction false} IndexOfAfter(a: string, c: char, b: string)
    requires c !in a
    ensures IndexOf(a + [c] + b, c) == Some(|a|)
    decreases |a|
  {
    if a == [] {
    } else {
      assert (a + [c] + b)[1..] == a[1..] + [c] + b;
      IndexOfAfter(a[1..], c, b);
    }
  }

  /** `[String]::join`. */
  function Join(parts: seq<string>, sep: string): string
    decreases |parts|
  {
    if parts == [] then []
    else if |parts| == 1 then parts[0]
    else parts[0] + sep + Join(parts[1..], sep)
  }

  /** Joining the pieces of a split with the separator gives the text back. */
  lemma {:induction false} JoinSplit(s: string, c: char)
    ensures Join(Split(s, c), [c]) == s
    decreases |s|
  {
    if s != [] {
      var rest := Split(s[1..], c);
      JoinSplit(s[1..], c);
      if s[0] == c {
        assert Split(s, c) == [[]] + rest;
        assert ([[]] + rest)[1..] == rest;
        assert [c] + s[1..] == s;
      } else {
        var parts := [[s[0]] + rest[0]] + rest[1..];
        assert Split(s, c) == parts;
        if |rest| == 1 {
          assert Join(rest, [c]) == rest[0];
        } else {
          assert parts[1..] == rest[1..];
          assert Join(rest, [c]) == rest[0] + [c] + Join(rest[1..], [c]);
        }
        assert [s[0]] + s[1..] == s;
      }
    }
  }

  /** Joining peels off the last part. */
  lemma {:induction false} JoinSnoc(parts: seq<string>, sep: string)
    requires |parts| >= 2
    ensures Join(parts, sep) == Join(parts[..|parts| - 1], sep) + sep + parts[|parts| - 1]
    decreases |parts|
  {
    if |parts| > 2 {
      JoinSnoc(parts[1..], sep);
      assert parts[1..][..|parts| - 2] == parts[..|parts| - 1][1..];
    } else {
      assert parts[..1] == [parts[0]];
    }
  }

  /** The pieces of a split hold no character the text lacks. */
  lemma {:induction false} SplitKeepsAbsent(s: string, c: char, d: char)
    requires d !in s
    ensures forall i :: 0 <= i < |Split(s, c)| ==> d !in Split(s, c)[i]
    decreases |s|
  {
    if s != [] {
      SplitKeepsAbsent(s[1..], c, d);
    }
  }

  function StripCr(line: string): string {
    if line != [] && line[|line| - 1] == '\r' then line[..|line| - 1] else line
  }

  /** `str::lines`: pieces between '\n', a '\r' before the '\n' removed, and
      no empty final piece after a trailing '\n'. */
  function Lines(s: string): seq<string> {
    var pieces := Split(s, '\n');
    var last := pieces[|pieces| - 1];
    seq(|pieces| - 1, i requires 0 <= i < |pieces| - 1 => StripCr(pieces[i]))
      + (if last == [] then [] else [last])
  }

  function Repeat(c: char, n: nat): (r: string)
    ensures |r| == n && forall i :: 0 <= i < n ==> r[i] == c
  {
    seq(n, _ => c)
  }

  /** `str::trim_end_matches` with a string pattern. */
  function TrimEndMatches(s: string, p: string): (r: string)
    requires p != []
    ensures r <= s
    ensures !EndsWith(r, p)
    decreases |s|
  {
    if EndsWith(s, p) then TrimEndMatches(s[..|s| - |p|], p) else s
  }

  /** `str::trim_start_matches` with a character pattern. */
  function TrimStartChar(s: string, c: char): (r: string)
    ensures |r| <= |s| && r == s[|s| - |r|..]
    ensures r == [] || r[0] != c
    ensures forall i :: 0 <= i < |s| - |r| ==> s[i] == c
  {
    if s != [] && s[0] == c then TrimStartChar(s[1..], c) else s
  }

  /** The first piece of `str::rsplit(c)`: the text after the last `c`, or
      all of `s` when it holds no `c`. */
  function AfterLast(s: string, c: char): (r: string)
    ensures c !in r
    ensures |r| <= |s| && r == s[|s| - |r|..]
    ensures |r| < |s| ==> s[|s| - |r| - 1] == c
  {
    if s == [] then []
    else if s[|s| - 1] == c then []
    else AfterLast(s[..|s| - 1], c) + [s[|s| - 1]]
  }

  /** The last item of `str::split_whitespace`, or "" when there is none. */
  function LastWord(s: string): (r: string)
    ensures forall i :: 0 <= i < |r| ==> !IsWhitespace(r[i])
  {
    TrailingWord(TrimEnd(s))
  }

  function TrailingWord(s: string): (r: string)
    ensures |r| <= |s| && r == s[|s| - |r|..]
    ensures forall i :: 0 <= i < |r| ==> !IsWhitespace(r[i])
  {
    if s == [] || IsWhitespace(s[|s| - 1]) then []
    else TrailingWord(s[..|s| - 1]) + [s[|s| - 1]]
  }

  // ----- UTF-8 structure of the byte-per-char encoding -----

  predicate IsContinuationByte(b: char) {
    '\U{0080}' <= b <= '\U{00BF}'
  }

  /** `str::is_char_boundary`. */
  predicate IsCharBoundary(s: string, i: int) {
    i == 0 || i == |s| || (0 < i < |s| && !IsContinuationByte(s[i]))
  }

  /** The number of continuation bytes at the start of `s`. */
  function ContinuationRun(s: string): (k: nat)
    ensures k <= |s|
    ensures forall i :: 0 <= i < k ==> IsContinuationByte(s[i])
    ensures k < |s| ==> !IsContinuationByte(s[k])
  {
    if s != [] && IsContinuationByte(s[0]) then 1 + ContinuationRun(s[1..]) else 0
  }

  /** The bytes of the first character: its lead byte and the continuation
      bytes that follow it. */
  function FirstCharLen(s: string): (k: nat)
    requires s != []
    ensures 1 <= k <= |s|
  {
    1 + ContinuationRun(s[1..])
  }

  /** The number of characters of `s` (`s.chars().count()`). */
  function CharCount(s: string): nat
    decreases |s|
  {
    if s == [] then 0 else 1 + CharCount(s[FirstCharLen(s)..])
  }

  /** `s.chars().take(n).collect::<String>()`. */
  function TakeChars(s: string, n: nat): (r: string)
    ensures r <= s
    ensures CharCount(r) == if n <= CharCount(s) then n else CharCount(s)
    decreases |s|
  {
    if n == 0 || s == [] then []
    else
      var k := FirstCharLen(s);
      var rest := TakeChars(s[k..], n - 1);
      FirstCharOfPrefix(s, rest);
      s[..k] + rest
  }

  /** Prefixing the first character of `s` to a prefix of its remainder
      leaves that character the first one. */
  lemma {:induction false} FirstCharOfPrefix(s: string, rest: string)
    requires s != [] && rest <= s[FirstCharLen(s)..]
    ensures FirstCharLen(s[..FirstCharLen(s)] + rest) == FirstCharLen(s)
    ensures (s[..FirstCharLen(s)] + rest)[FirstCharLen(s)..] == rest
  {
    var k := FirstCharLen(s);
    var t := s[..k] + rest;
    var u := s[1..];
    assert t[1..] == u[..k - 1] + rest;
    assert u[k - 1..] == s[k..];
    ContinuationRunOfPrefix(u, rest, k - 1);
  }

  lemma {:induction false} ContinuationRunOfPrefix(u: string, rest: string, k: nat)
    requires k == ContinuationRun(u)
    requires rest <= u[k..]
    ensures ContinuationRun(u[..k] + rest) == k
    decreases k
  {
    var t := u[..k] + rest;
    if k == 0 {
      assert t == rest;
      if rest != [] {
        assert rest[0] == u[0];
      }
    } else {
      assert t[0] == u[0];
      assert t[1..] == u[1..][..k - 1] + rest;
      assert u[1..][k - 1..] == u[k..];
      ContinuationRunOfPrefix(u[1..], rest, k - 1);
    }
  }
}
