/**
 * String helpers shared by the codecs and the string utilities: FString::ReplaceInline,
 * FString::Find (case-sensitive, from the start), concatenation of pieces, indentation.
 */
module Text {

  /** LINE_TERMINATOR of the platform; this model fixes the non-Windows value. */
  const LineTerminator: string := "\n"

  /** `n` blanks: the indentation written for one level of XML nesting is two of these. */
  function Spaces(n: nat): (r: string)
    ensures |r| == n && forall i :: 0 <= i < n ==> r[i] == ' '
  {
    if n == 0 then [] else Spaces(n - 1) + [' ']
  }

  /** The pieces written one after the other. */
  function Concat(pieces: seq<string>): string
  {
    if pieces == [] then [] else pieces[0] + Concat(pieces[1..])
  }

  lemma {:induction false} ConcatAppend(a: seq<string>, b: seq<string>)
    ensures Concat(a + b) == Concat(a) + Concat(b)
  {
    if a == [] {
      assert a + b == b;
    } else {
      assert (a + b)[1..] == a[1..] + b;
      ConcatAppend(a[1..], b);
    }
  }

  /** `sub` starts at position `i` of `s`. */
  predicate OccursAt(s: string, sub: string, i: int)
  {
    0 <= i && i + |sub| <= |s| && s[i..i + |sub|] == sub
  }

  predicate Contains(s: string, sub: string)
  {
    exists i | 0 <= i <= |s| :: OccursAt(s, sub, i)
  }

  /** First position at or after `from` where `sub` occurs, or -1. */
  function FindFrom(s: string, sub: string, from: nat): (r: int)
    requires |sub| > 0
    ensures r == -1 || (from <= r && OccursAt(s, sub, r))
    ensures forall j :: from <= j && (r == -1 || j < r) ==> !OccursAt(s, sub, j)
    decreases |s| - from
  {
    if from + |sub| > |s| then -1
    else if s[from..from + |sub|] == sub then from
    else FindFrom(s, sub, from + 1)
  }

  /** FString::Find with ESearchCase::CaseSensitive and ESearchDir::FromStart. */
  function Find(s: string, sub: string): (r: int)
    requires |sub| > 0
    ensures r == -1 <==> !Contains(s, sub)
    ensures r >= 0 ==> OccursAt(s, sub, r) && forall j :: 0 <= j < r ==> !OccursAt(s, sub, j)
  {
    var r := FindFrom(s, sub, 0);
    r
  }

  /**
   * FString::ReplaceInline: one left-to-right scan that replaces every non-overlapping
   * occurrence of `from` by `to`; text produced by a replacement is not scanned again.
   */
  function ReplaceAll(s: string, from: string, to: string): string
    requires |from| > 0
    decreases |s|
  {
    if |s| < |from| then s
    else if s[..|from|] == from then to + ReplaceAll(s[|from|..], from, to)
    else [s[0]] + ReplaceAll(s[1..], from, to)
  }

  /** A text that starts with the pattern: the replacement, then the scan resumes after it. */
  lemma ReplaceAllHit(rest: string, from: string, to: string)
    requires |from| > 0
    ensures ReplaceAll(from + rest, from, to) == to + ReplaceAll(rest, from, to)
  {
    assert (from + rest)[..|from|] == from;
    assert (from + rest)[|from|..] == rest;
  }

  /** A first character at which the pattern does not start is copied as it is. */
  lemma ReplaceAllMiss(c: char, rest: string, from: string, to: string)
    requires |from| > 0
    requires |[c] + rest| >= |from| ==> ([c] + rest)[..|from|] != from
    ensures ReplaceAll([c] + rest, from, to) == [c] + ReplaceAll(rest, from, to)
  {
    assert ([c] + rest)[1..] == rest;
  }

  /** Characters none of which starts the pattern pass through unchanged. */
  lemma {:induction false} ReplaceAllPass(w: string, rest: string, from: string, to: string)
    requires |from| > 0
    requires forall i :: 0 <= i < |w| ==> w[i] != from[0]
    ensures ReplaceAll(w + rest, from, to) == w + ReplaceAll(rest, from, to)
  {
    if w != [] {
      var t := w[1..] + rest;
      assert w + rest == [w[0]] + t;
      assert w[0] != from[0];
      ReplaceAllMiss(w[0], t, from, to);
      ReplaceAllPass(w[1..], rest, from, to);
      assert [w[0]] + (w[1..] + ReplaceAll(rest, from, to)) == w + ReplaceAll(rest, from, to);
    } else {
      assert w + rest == rest;
    }
  }

  /** A text that does not contain the first character of the pattern is left unchanged. */
  lemma ReplaceAllNone(s: string, from: string, to: string)
    requires |from| > 0
    requires forall i :: 0 <= i < |s| ==> s[i] != from[0]
    ensures ReplaceAll(s, from, to) == s
  {
    ReplaceAllPass(s, [], from, to);
    assert s + [] == s;
  }
}
