/**
  The context window around a match, shared by the address and indicator
  extractors (src/extractor/ioc.rs and src/extractor/crypto.rs hold the
  same three helpers): up to 100 bytes on each side, widened to character
  boundaries so that slicing multi-byte text cannot fail.
*/
module ContextWindow {
  import opened Errors
  import opened Strings

  const Window := 100

  /** A regular-expression match: the byte range `start..end` of the text. */
  datatype Match = Match(start: nat, end: nat)

  /** Every match lies within the text, as every match a regular
      expression reports does. */
  predicate InText(text: string, matches: seq<Match>) {
    forall i :: 0 <= i < |matches| ==> matches[i].start <= matches[i].end <= |text|
  }

  /** The largest character boundary at or before `pos` (clamped to the
      text). */
  function BoundaryBefore(text: string, pos: nat): (r: nat)
    ensures r <= Min(pos, |text|) && IsCharBoundary(text, r)
    decreases pos
  {
    var p := Min(pos, |text|);
    if p == 0 || IsCharBoundary(text, p) then p else BoundaryBefore(text, p - 1)
  }

  /** The smallest character boundary at or after `pos` (clamped to the
      text). */
  function BoundaryAfter(text: string, pos: nat): (r: nat)
    ensures Min(pos, |text|) <= r <= |text| && IsCharBoundary(text, r)
    decreases |text| - Min(pos, |text|)
  {
    var p := Min(pos, |text|);
    if p == |text| || IsCharBoundary(text, p) then p else BoundaryAfter(text, p + 1)
  }

  /** No boundary lies strictly between the result and the clamped
      position: it is the largest one at or before it. */
  lemma {:induction false} BoundaryBeforeIsLargest(text: string, pos: nat, q: nat)
    requires BoundaryBefore(text, pos) < q <= Min(pos, |text|)
    ensures !IsCharBoundary(text, q)
    decreases pos
  {
    var p := Min(pos, |text|);
    if q < p {
      BoundaryBeforeIsLargest(text, p - 1, q);
    }
  }

  /** The smallest boundary at or after the clamped position. */
  lemma {:induction false} BoundaryAfterIsSmallest(text: string, pos: nat, q: nat)
    requires Min(pos, |text|) <= q < BoundaryAfter(text, pos)
    ensures !IsCharBoundary(text, q)
    decreases |text| - Min(pos, |text|)
  {
    var p := Min(pos, |text|);
    if q > p {
      BoundaryAfterIsSmallest(text, p + 1, q);
    }
  }

  /** `find_char_boundary_before`. */
  method FindCharBoundaryBefore(text: string, pos: nat) returns (r: nat)
    ensures r == BoundaryBefore(text, pos)
  {
    r := Min(pos, |text|);
    while r > 0 && !IsCharBoundary(text, r)
      invariant r <= Min(pos, |text|)
      invariant BoundaryBefore(text, pos) == BoundaryBefore(text, r)
    {
      r := r - 1;
    }
  }

  /** `find_char_boundary_after`. */
  method FindCharBoundaryAfter(text: string, pos: nat) returns (r: nat)
    ensures r == BoundaryAfter(text, pos)
  {
    r := Min(pos, |text|);
    while r < |text| && !IsCharBoundary(text, r)
      invariant Min(pos, |text|) <= r <= |text|
      invariant BoundaryAfter(text, pos) == BoundaryAfter(text, r)
    {
      r := r + 1;
    }
  }

  /** The slice bounds for a match from `start` to `end`: character
      boundaries that enclose the match. */
  function ContextBounds(text: string, start: nat, end: nat): (b: (nat, nat))
    requires start <= end <= |text|
    ensures IsCharBoundary(text, b.0) && IsCharBoundary(text, b.1)
    ensures b.0 <= start && end <= b.1 <= |text|
  {
    var before := if start >= Window then start - Window else 0;
    (BoundaryBefore(text, before), BoundaryAfter(text, Min(end + Window, |text|)))
  }

  /** The window, trimmed, with newlines turned into spaces and double
      spaces halved. */
  function ContextOf(text: string, start: nat, end: nat): string
    requires start <= end <= |text|
  {
    var (s, e) := ContextBounds(text, start, end);
    Replace(Replace(Trim(text[s..e]), "\n", " "), "  ", " ")
  }

  /** `extract_context_safe`. */
  method ExtractContextSafe(text: string, start: nat, end: nat) returns (context: string)
    requires start <= end <= |text|
    ensures context == ContextOf(text, start, end)
  {
    var before := if start >= Window then start - Window else 0;
    var contextStart := FindCharBoundaryBefore(text, before);
    var contextEnd := FindCharBoundaryAfter(text, Min(end + Window, |text|));
    context := Replace(Replace(Trim(text[contextStart..contextEnd]), "\n", " "), "  ", " ");
  }

  /** The window holds no newline. */
  lemma ContextHasNoNewline(text: string, start: nat, end: nat)
    requires start <= end <= |text|
    ensures '\n' !in ContextOf(text, start, end)
  {
    var (s, e) := ContextBounds(text, start, end);
    var once := Replace(Trim(text[s..e]), "\n", " ");
    ReplaceRemovesChar(Trim(text[s..e]), '\n', " ");
    ReplaceKeepsAbsent(once, "  ", " ", '\n');
  }
}
