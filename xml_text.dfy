/**
 * XmlEscapeChars and XmlConvertChars: three ReplaceInline passes each. The passes are related to a
 * character-by-character view of escaping, which gives the round trip and the absence of angle
 * brackets in escaped text.
 */
module XmlText {
  import opened Text

  /** The entity written for a character the escaper replaces. */
  function Entity(ch: char): string
  {
    if ch == '&' then "&amp;" else if ch == '<' then "&lt;" else "&gt;"
  }

  /** The escaping pass that replaces `ch`: 1 for '&', 2 for '<', 3 for '>', 0 for every other character. */
  function Pass(ch: char): nat
  {
    if ch == '&' then 1 else if ch == '<' then 2 else if ch == '>' then 3 else 0
  }

  /** The character escaping pass `k` replaces. */
  function PassChar(k: nat): (ch: char)
    requires 1 <= k <= 3
    ensures Pass(ch) == k
  {
    if k == 1 then '&' else if k == 2 then '<' else '>'
  }

  /** One character as it stands after the first `k` escaping passes. */
  function EscapedUpTo(ch: char, k: nat): string
  {
    if 1 <= Pass(ch) <= k then Entity(ch) else [ch]
  }

  /** A text as it stands after the first `k` escaping passes: each character on its own. */
  function EscapeUpTo(s: string, k: nat): string
  {
    if s == [] then [] else EscapedUpTo(s[0], k) + EscapeUpTo(s[1..], k)
  }

  /** XmlEscapeChars: '&' first, so that the entities written later are not escaped again. */
  function XmlEscapeChars(s: string): string
  {
    ReplaceAll(ReplaceAll(ReplaceAll(s, "&", "&amp;"), "<", "&lt;"), ">", "&gt;")
  }

  /** XmlConvertChars: the passes in the opposite order, "&amp;" last. */
  function XmlConvertChars(s: string): string
  {
    ReplaceAll(ReplaceAll(ReplaceAll(s, "&gt;", ">"), "&lt;", "<"), "&amp;", "&")
  }

  lemma {:induction false} EscapeNone(s: string)
    ensures EscapeUpTo(s, 0) == s
  {
    if s != [] {
      EscapeNone(s[1..]);
      assert s == [s[0]] + s[1..];
    }
  }

  /** Pass `k` of the escaper turns the text of the first `k - 1` passes into that of the first `k`. */
  lemma {:induction false} EscapePass(s: string, k: nat)
    requires 1 <= k <= 3
    ensures ReplaceAll(EscapeUpTo(s, k - 1), [PassChar(k)], Entity(PassChar(k))) == EscapeUpTo(s, k)
  {
    var from, to := [PassChar(k)], Entity(PassChar(k));
    if s != [] {
      var ch := s[0];
      var rest := EscapeUpTo(s[1..], k - 1);
      EscapePass(s[1..], k);
      if ch == PassChar(k) {
        ReplaceAllHit(rest, from, to);
      } else {
        var w := EscapedUpTo(ch, k - 1);
        assert w == EscapedUpTo(ch, k);
        assert forall i :: 0 <= i < |w| ==> w[i] != from[0] by {
          if w != [ch] {
            assert w == "&amp;" || w == "&lt;";
          }
        }
        ReplaceAllPass(w, rest, from, to);
      }
    }
  }

  /** Pass `4 - k` of the converter undoes escaping pass `k`. */
  lemma {:induction false} ConvertPass(s: string, k: nat)
    requires 1 <= k <= 3
    ensures ReplaceAll(EscapeUpTo(s, k), Entity(PassChar(k)), [PassChar(k)]) == EscapeUpTo(s, k - 1)
  {
    var from, to := Entity(PassChar(k)), [PassChar(k)];
    if s != [] {
      var ch := s[0];
      var rest := EscapeUpTo(s[1..], k);
      ConvertPass(s[1..], k);
      if ch == PassChar(k) {
        ReplaceAllHit(rest, from, to);
      } else {
        var w := EscapedUpTo(ch, k);
        assert w == EscapedUpTo(ch, k - 1);
        if w == [ch] {
          assert ch != '&';
          ReplaceAllPass(w, rest, from, to);
        } else {
          ConvertOther(w, rest, from, to);
        }
      }
    }
  }

  /**
   * A text that starts like the pattern but differs from it in its second character, and whose
   * other characters are not the pattern's first, is copied as it is.
   */
  lemma SkipNearMiss(w: string, rest: string, from: string, to: string)
    requires |w| >= 2 && |from| >= 2 && w[0] == from[0] && w[1] != from[1]
    requires forall i :: 1 <= i < |w| ==> w[i] != from[0]
    ensures ReplaceAll(w + rest, from, to) == w + ReplaceAll(rest, from, to)
  {
    var tail := w[1..] + rest;
    assert w + rest == [w[0]] + tail;
    assert ([w[0]] + tail)[1] == w[1];
    ReplaceAllMiss(w[0], tail, from, to);
    ReplaceAllPass(w[1..], rest, from, to);
    assert w == [w[0]] + w[1..];
  }

  /** An entity other than the one being converted is copied as it is. */
  lemma ConvertOther(w: string, rest: string, from: string, to: string)
    requires w == "&amp;" || w == "&lt;"
    requires from == "&lt;" || from == "&gt;"
    requires w != from
    ensures ReplaceAll(w + rest, from, to) == w + ReplaceAll(rest, from, to)
  {
    assert |w| >= 2 && |from| >= 2 && w[0] == from[0] && w[1] != from[1];
    assert forall i :: 1 <= i < |w| ==> w[i] != from[0];
    SkipNearMiss(w, rest, from, to);
  }

  /** Escaping is the character-by-character replacement of '&', '<' and '>' by their entities. */
  lemma EscapeCharwise(s: string)
    ensures XmlEscapeChars(s) == EscapeUpTo(s, 3)
  {
    EscapeNone(s);
    EscapePass(s, 1);
    EscapePass(s, 2);
    EscapePass(s, 3);
  }

  /** Converting escaped text gives back the original text. */
  lemma ConvertEscape(s: string)
    ensures XmlConvertChars(XmlEscapeChars(s)) == s
  {
    EscapeCharwise(s);
    ConvertPass(s, 3);
    ConvertPass(s, 2);
    ConvertPass(s, 1);
    EscapeNone(s);
  }

  lemma {:induction false} EscapedNoAngles(s: string)
    ensures forall i :: 0 <= i < |EscapeUpTo(s, 3)| ==> EscapeUpTo(s, 3)[i] != '<' && EscapeUpTo(s, 3)[i] != '>'
  {
    if s != [] {
      EscapedNoAngles(s[1..]);
      var w := EscapedUpTo(s[0], 3);
      assert w == "&amp;" || w == "&lt;" || w == "&gt;" || (w == [s[0]] && s[0] != '<' && s[0] != '>');
    }
  }

  /** Escaped text contains no '<' and no '>'. */
  lemma EscapeNoAngles(s: string)
    ensures forall i :: 0 <= i < |XmlEscapeChars(s)| ==> XmlEscapeChars(s)[i] != '<' && XmlEscapeChars(s)[i] != '>'
  {
    EscapeCharwise(s);
    EscapedNoAngles(s);
  }

  /** Text with none of the three special characters is written as it is. */
  lemma EscapePlain(s: string)
    requires forall i :: 0 <= i < |s| ==> Pass(s[i]) == 0
    ensures XmlEscapeChars(s) == s
  {
    ReplaceAllNone(s, "&", "&amp;");
    ReplaceAllNone(s, "<", "&lt;");
    ReplaceAllNone(s, ">", "&gt;");
  }

  /** Text without '&' is read as it is. */
  lemma ConvertPlain(s: string)
    requires forall i :: 0 <= i < |s| ==> s[i] != '&'
    ensures XmlConvertChars(s) == s
  {
    ReplaceAllNone(s, "&gt;", ">");
    ReplaceAllNone(s, "&lt;", "<");
    ReplaceAllNone(s, "&amp;", "&");
  }
}
