/**
 * The escaping the chat view applies to every message before it is placed in
 * the page (streamlit_app.py:259): four `str.replace` calls in a row, for
 * '&', '<', '>' and the line break.
 *
 * The proofs view each intermediate string as a token stream: `Encode(enc, s)`
 * writes every character of `s` that is in `enc` as its entity and every other
 * character as itself. Each `str.replace` of the chain, in either direction,
 * moves one character into or out of `enc`.
 */
module HtmlEscape {
  import opened Text

  /** The characters that the chat view rewrites. */
  const Special: set<char> := {'&', '<', '>', '\n'}

  /** What each special character is written as; other characters stand for themselves. */
  function Entity(c: char): string {
    if c == '&' then "&amp;"
    else if c == '<' then "&lt;"
    else if c == '>' then "&gt;"
    else if c == '\n' then "<br>"
    else [c]
  }

  function Token(enc: set<char>, c: char): string {
    if c in enc then Entity(c) else [c]
  }

  /** `s` with the characters in `enc` written as entities. */
  function Encode(enc: set<char>, s: string): string
    decreases |s|
  {
    if s == [] then [] else Token(enc, s[0]) + Encode(enc, s[1..])
  }

  /** The escaping chain of streamlit_app.py:259, with its ordering guarantees. */
  function EscapeHtml(s: string): (r: string)
    ensures forall i :: 0 <= i < |r| ==> r[i] != '\n'
    ensures forall i :: 0 <= i < |r| && r[i] == '<' ==> i + 4 <= |r| && r[i..i + 4] == "<br>"
  {
    EscapeIsEncode(s);
    EncodedShape(s);
    ReplaceAll(ReplaceAll(ReplaceAll(ReplaceAll(s, "&", "&amp;"), "<", "&lt;"), ">", "&gt;"), "\n", "<br>")
  }

  /**
   * The reverse chain, "<br>" first and "&amp;" last. The source has no
   * decoder; this is the reference against which the escaping is shown to
   * lose nothing.
   */
  function UnescapeHtml(s: string): string {
    ReplaceAll(ReplaceAll(ReplaceAll(ReplaceAll(s, "<br>", "\n"), "&lt;", "<"), "&gt;", ">"), "&amp;", "&")
  }

  /** The escaped message decodes back to the message. */
  lemma EscapeRoundTrip(s: string)
    ensures UnescapeHtml(EscapeHtml(s)) == s
  {
    EscapeIsEncode(s);
    var e := Encode(Special, s);
    DecodeStages();
    EncodeStep(Special, {'&', '<', '>'}, "<br>", "\n", s);
    EncodeStep({'&', '<', '>'}, {'&', '>'}, "&lt;", "<", s);
    EncodeStep({'&', '>'}, {'&'}, "&gt;", ">", s);
    EncodeStep({'&'}, {}, "&amp;", "&", s);
    EncodeNothing(s);
  }

  // ---------------------------------------------------------------------
  // One replace step on a token stream
  // ---------------------------------------------------------------------

  /**
   * Replacing `pat` by `rep` turns the token of `c` under `enc1` into its
   * token under `enc2`: either the token is exactly `pat` and becomes `rep`,
   * or no match starts inside it and it stays.
   */
  predicate StepOk(enc1: set<char>, enc2: set<char>, pat: string, rep: string, c: char)
    requires pat != []
  {
    || (Token(enc1, c) == pat && Token(enc2, c) == rep)
    || (NoMatchWithin(Token(enc1, c), pat) && Token(enc2, c) == Token(enc1, c))
  }

  lemma {:induction false} EncodeStep(enc1: set<char>, enc2: set<char>, pat: string, rep: string, s: string)
    requires pat != []
    requires forall c :: StepOk(enc1, enc2, pat, rep, c)
    ensures ReplaceAll(Encode(enc1, s), pat, rep) == Encode(enc2, s)
    decreases |s|
  {
    if s != [] {
      var t, rest := Token(enc1, s[0]), Encode(enc1, s[1..]);
      assert StepOk(enc1, enc2, pat, rep, s[0]);
      EncodeStep(enc1, enc2, pat, rep, s[1..]);
      if t == pat && Token(enc2, s[0]) == rep {
        ReplaceAllMatches(rest, pat, rep);
      } else {
        ReplaceAllSkips(t, rest, pat, rep);
      }
    }
  }

  lemma {:induction false} EncodeNothing(s: string)
    ensures Encode({}, s) == s
    decreases |s|
  {
    if s != [] {
      EncodeNothing(s[1..]);
      assert [s[0]] + s[1..] == s;
    }
  }

  /** A character outside both sets and unlike the pattern's first character is left alone. */
  lemma PlainStep(enc1: set<char>, enc2: set<char>, pat: string, rep: string, c: char)
    requires pat != [] && c !in enc1 && c !in enc2 && c != pat[0]
    ensures StepOk(enc1, enc2, pat, rep, c)
  {
  }

  /** A character encoded before and after whose entity holds no match stays. */
  lemma KeptStep(enc1: set<char>, enc2: set<char>, pat: string, rep: string, c: char)
    requires pat != [] && c in enc1 && c in enc2 && NoMatchWithin(Entity(c), pat)
    ensures StepOk(enc1, enc2, pat, rep, c)
  {
  }

  // ---------------------------------------------------------------------
  // The four escaping steps
  // ---------------------------------------------------------------------

  lemma EscapeIsEncode(s: string)
    ensures ReplaceAll(ReplaceAll(ReplaceAll(ReplaceAll(s, "&", "&amp;"), "<", "&lt;"), ">", "&gt;"), "\n", "<br>")
            == Encode(Special, s)
  {
    forall c ensures StepOk({}, {'&'}, "&", "&amp;", c) {
      if c != '&' { PlainStep({}, {'&'}, "&", "&amp;", c); }
    }
    forall c ensures StepOk({'&'}, {'&', '<'}, "<", "&lt;", c) {
      if c == '&' { KeptStep({'&'}, {'&', '<'}, "<", "&lt;", c); }
      else if c != '<' { PlainStep({'&'}, {'&', '<'}, "<", "&lt;", c); }
    }
    forall c ensures StepOk({'&', '<'}, {'&', '<', '>'}, ">", "&gt;", c) {
      if c == '&' || c == '<' { KeptStep({'&', '<'}, {'&', '<', '>'}, ">", "&gt;", c); }
      else if c != '>' { PlainStep({'&', '<'}, {'&', '<', '>'}, ">", "&gt;", c); }
    }
    forall c ensures StepOk({'&', '<', '>'}, Special, "\n", "<br>", c) {
      if c == '&' || c == '<' || c == '>' { KeptStep({'&', '<', '>'}, Special, "\n", "<br>", c); }
      else if c != '\n' { PlainStep({'&', '<', '>'}, Special, "\n", "<br>", c); }
    }
    EncodeNothing(s);
    EncodeStep({}, {'&'}, "&", "&amp;", s);
    EncodeStep({'&'}, {'&', '<'}, "<", "&lt;", s);
    EncodeStep({'&', '<'}, {'&', '<', '>'}, ">", "&gt;", s);
    EncodeStep({'&', '<', '>'}, Special, "\n", "<br>", s);
  }

  // ---------------------------------------------------------------------
  // The four decoding steps
  // ---------------------------------------------------------------------

  lemma DecodeStages()
    ensures forall c :: StepOk(Special, {'&', '<', '>'}, "<br>", "\n", c)
    ensures forall c :: StepOk({'&', '<', '>'}, {'&', '>'}, "&lt;", "<", c)
    ensures forall c :: StepOk({'&', '>'}, {'&'}, "&gt;", ">", c)
    ensures forall c :: StepOk({'&'}, {}, "&amp;", "&", c)
  {
    forall c ensures StepOk(Special, {'&', '<', '>'}, "<br>", "\n", c) {
      if c == '&' || c == '<' || c == '>' { KeptStep(Special, {'&', '<', '>'}, "<br>", "\n", c); }
      else if c != '\n' { PlainStep(Special, {'&', '<', '>'}, "<br>", "\n", c); }
    }
    forall c ensures StepOk({'&', '<', '>'}, {'&', '>'}, "&lt;", "<", c) {
      if c == '&' {
        assert "&amp;"[0..4][1] != "&lt;"[1];
        KeptStep({'&', '<', '>'}, {'&', '>'}, "&lt;", "<", c);
      } else if c == '>' {
        assert "&gt;"[0..4][1] != "&lt;"[1];
        KeptStep({'&', '<', '>'}, {'&', '>'}, "&lt;", "<", c);
      } else if c != '<' {
        PlainStep({'&', '<', '>'}, {'&', '>'}, "&lt;", "<", c);
      }
    }
    forall c ensures StepOk({'&', '>'}, {'&'}, "&gt;", ">", c) {
      if c == '&' {
        assert "&amp;"[0..4][1] != "&gt;"[1];
        KeptStep({'&', '>'}, {'&'}, "&gt;", ">", c);
      } else if c != '>' {
        PlainStep({'&', '>'}, {'&'}, "&gt;", ">", c);
      }
    }
    forall c ensures StepOk({'&'}, {}, "&amp;", "&", c) {
      if c != '&' { PlainStep({'&'}, {}, "&amp;", "&", c); }
    }
  }

  // ---------------------------------------------------------------------
  // Shape of the escaped text
  // ---------------------------------------------------------------------

  /** No line break, and every '<' opens a "<br>". */
  predicate WellEscaped(e: string) {
    forall i :: 0 <= i < |e| ==> e[i] != '\n' && (e[i] == '<' ==> i + 4 <= |e| && e[i..i + 4] == "<br>")
  }

  /** Fully encoded text has no line break, and each '<' opens a "<br>". */
  lemma {:induction false} EncodedShape(s: string)
    ensures WellEscaped(Encode(Special, s))
    decreases |s|
  {
    if s != [] {
      var t, rest := Token(Special, s[0]), Encode(Special, s[1..]);
      EncodedShape(s[1..]);
      var e := t + rest;
      assert WellEscaped(rest);
      forall i | 0 <= i < |e|
        ensures e[i] != '\n' && (e[i] == '<' ==> i + 4 <= |e| && e[i..i + 4] == "<br>")
      {
        if i < |t| {
          assert e[i] == t[i];
          TokenShape(s[0], i);
          if t[i] == '<' {
            assert e[i..i + 4] == t;
          }
        } else {
          var j := i - |t|;
          assert e[i] == rest[j];
          assert rest[j] != '\n' && (rest[j] == '<' ==> j + 4 <= |rest| && rest[j..j + 4] == "<br>");
          if rest[j] == '<' {
            assert e[i..i + 4] == rest[j..j + 4];
          }
        }
      }
    }
  }

  /** Inside one fully encoded token: no line break, and '<' only as the start of "<br>". */
  lemma TokenShape(c: char, i: nat)
    requires i < |Token(Special, c)|
    ensures Token(Special, c)[i] != '\n'
    ensures Token(Special, c)[i] == '<' ==> i == 0 && Token(Special, c) == "<br>"
  {
  }
}
