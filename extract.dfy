/**
 * The text extractors `extract_pdf_text` and `extract_docx_text`
 * (streamlit_app.py:31-52). The PDF and Word parsers are not modelled: an
 * extractor receives the page (or paragraph) texts the parser produced, or
 * `None` when the parser raised.
 */
module Extract {
  import opened Text

  /** Each part followed by a line break, in order. */
  function Terminated(parts: seq<string>): (r: string)
    ensures |r| >= |parts|
    ensures parts != [] ==> r[|r| - 1] == '\n'
    decreases |parts|
  {
    if parts == [] then [] else parts[0] + "\n" + Terminated(parts[1..])
  }

  lemma {:induction false} TerminatedAppend(parts: seq<string>, p: string)
    ensures Terminated(parts + [p]) == Terminated(parts) + p + "\n"
    decreases |parts|
  {
    if parts == [] {
      assert parts + [p] == [p];
    } else {
      assert (parts + [p])[0] == parts[0];
      assert (parts + [p])[1..] == parts[1..] + [p];
      TerminatedAppend(parts[1..], p);
    }
  }

  /** The accumulating loop shared by both extractors (streamlit_app.py:34-37 and 46-49). */
  method JoinLines(parts: seq<string>) returns (text: string)
    ensures text == Terminated(parts)
  {
    text := "";
    for i := 0 to |parts|
      invariant text == Terminated(parts[..i])
    {
      TerminatedAppend(parts[..i], parts[i]);
      assert parts[..i + 1] == parts[..i] + [parts[i]];
      text := text + parts[i] + "\n";
    }
    assert parts[..|parts|] == parts;
  }

  /** `extract_pdf_text`: page texts in page order, each ending in a line break. */
  method ExtractPdfText(pages: Option<seq<string>>) returns (text: Option<string>)
    ensures pages.None? ==> text.None?
    ensures pages.Some? ==> text == Some(Terminated(pages.value))
  {
    if pages.None? {
      return None;
    }
    var joined := JoinLines(pages.value);
    return Some(joined);
  }

  /** `extract_docx_text`: paragraph texts in document order, each ending in a line break. */
  method ExtractDocxText(paragraphs: Option<seq<string>>) returns (text: Option<string>)
    ensures paragraphs.None? ==> text.None?
    ensures paragraphs.Some? ==> text == Some(Terminated(paragraphs.value))
  {
    if paragraphs.None? {
      return None;
    }
    var joined := JoinLines(paragraphs.value);
    return Some(joined);
  }

  /**
   * The extracted text is empty exactly when the document has no pages: a
   * document whose pages hold no text still yields one line break per page.
   */
  lemma TerminatedEmpty(parts: seq<string>)
    ensures Terminated(parts) == [] <==> parts == []
  {
    if parts != [] {
      assert |Terminated(parts)| >= 1;
    }
  }

  // ---------------------------------------------------------------------
  // Splitting the text back into parts
  // ---------------------------------------------------------------------

  /** The position of the first line break, or |s| when there is none. */
  function LineEnd(s: string): (k: nat)
    ensures k <= |s|
    ensures forall j :: 0 <= j < k ==> s[j] != '\n'
    ensures k < |s| ==> s[k] == '\n'
    decreases |s|
  {
    if s == [] then 0 else if s[0] == '\n' then 0 else 1 + LineEnd(s[1..])
  }

  /** Cuts text at each line break; an unterminated last line counts as a part. */
  function SplitLines(s: string): seq<string>
    decreases |s|
  {
    if s == [] then []
    else
      var k := LineEnd(s);
      if k == |s| then [s] else [s[..k]] + SplitLines(s[k + 1..])
  }

  /** When no part contains a line break, splitting the extracted text gives the parts back. */
  lemma {:induction false} SplitTerminated(parts: seq<string>)
    requires forall i :: 0 <= i < |parts| ==> '\n' !in parts[i]
    ensures SplitLines(Terminated(parts)) == parts
    decreases |parts|
  {
    if parts != [] {
      var p, rest := parts[0], Terminated(parts[1..]);
      var s := Terminated(parts);
      assert s == p + "\n" + rest;
      var k := LineEnd(s);
      assert s[|p|] == '\n';
      assert k == |p|;
      assert s[..k] == p;
      assert s[k + 1..] == rest;
      SplitTerminated(parts[1..]);
    }
  }
}
