/**
 * The handling of one uploaded file (streamlit_app.py:372-403): the file type
 * from the name, the choice of extractor, the rejection of other types, the
 * summary request, and the insert that happens only when text was extracted.
 */
module Upload {
  import opened Text
  import opened CvStore
  import opened Extract

  // ---------------------------------------------------------------------
  // File type
  // ---------------------------------------------------------------------

  /** `name.split('.')[-1]`: the text after the last '.', or all of `name` when it has none. */
  function LastSegment(name: string): (r: string)
    ensures '.' !in r
    ensures |r| <= |name| && name[|name| - |r|..] == r
    ensures |r| < |name| ==> name[|name| - |r| - 1] == '.'
    decreases |name|
  {
    if name == [] then []
    else if name[|name| - 1] == '.' then []
    else
      var init := name[..|name| - 1];
      var r := LastSegment(init);
      assert name[|name| - |r| - 1..] == init[|init| - |r|..] + [name[|name| - 1]];
      r + [name[|name| - 1]]
  }

  /** The extension after the last dot is what LastSegment returns, whatever precedes it. */
  lemma LastSegmentAfterDot(base: string, ext: string)
    requires '.' !in ext
    ensures LastSegment(base + "." + ext) == ext
  {
    var name := base + "." + ext;
    var r := LastSegment(name);
    assert name[|base|] == '.';
    assert name[|name| - |ext|..] == ext;
    assert |r| == |ext|;
  }

  /** `file_type`: the lower-cased extension. */
  function FileType(name: string): (r: string)
    ensures |r| <= |name| && '.' !in r
    ensures forall i :: 0 <= i < |r| ==> !IsUpper(r[i])
  {
    var ext := LastSegment(name);
    assert forall i :: 0 <= i < |ext| ==> ext[i] != '.';
    Lower(ext)
  }

  predicate Supported(fileType: string) {
    fileType == "pdf" || fileType == "docx" || fileType == "txt"
  }

  // ---------------------------------------------------------------------
  // Extraction
  // ---------------------------------------------------------------------

  /**
   * What each reader makes of the uploaded bytes: the PDF pages' texts, the
   * Word paragraphs' texts, and the UTF-8 decoding; `None` where that reader
   * raises.
   */
  datatype Readers = Readers(
    pdfPages: Option<seq<string>>,
    docxParagraphs: Option<seq<string>>,
    utf8Text: Option<string>)

  /** An extractor's result: `None` when the parser raised, else the terminated parts. */
  function TerminatedOpt(parts: Option<seq<string>>): (r: Option<string>)
    ensures r.Some? <==> parts.Some?
    ensures r.Some? ==> (r.value == [] <==> parts.value == [])
  {
    if parts.Some? then
      TerminatedEmpty(parts.value);
      Some(Terminated(parts.value))
    else None
  }

  /** `content` after the dispatch of streamlit_app.py:374-379. */
  function Extracted(fileType: string, readers: Readers): (r: Option<string>)
    requires Supported(fileType)
    ensures fileType == "txt" ==> r == readers.utf8Text
    ensures fileType == "pdf" ==> (r.Some? <==> readers.pdfPages.Some?)
    ensures fileType == "docx" ==> (r.Some? <==> readers.docxParagraphs.Some?)
    ensures fileType == "pdf" && r.Some? ==> (r.value == [] <==> readers.pdfPages.value == [])
    ensures fileType == "docx" && r.Some? ==> (r.value == [] <==> readers.docxParagraphs.value == [])
  {
    if fileType == "pdf" then TerminatedOpt(readers.pdfPages)
    else if fileType == "docx" then TerminatedOpt(readers.docxParagraphs)
    else readers.utf8Text
  }

  // ---------------------------------------------------------------------
  // Summary
  // ---------------------------------------------------------------------

  const SummaryInstruction :=
    "Analyze this CV and provide a brief summary (2-3 sentences) highlighting key skills, experience, and qualifications:\n\n"
  const SummaryFailed := "Summary generation failed"
  const SummaryInputLimit := 2000

  /** The summary request: the instruction and at most the first 2000 characters of the CV. */
  function SummaryPrompt(content: string): (r: string)
    ensures |r| <= |SummaryInstruction| + SummaryInputLimit
    ensures IsPrefix(SummaryInstruction, r)
    ensures |content| <= SummaryInputLimit ==> r == SummaryInstruction + content
  {
    SummaryInstruction + Take(content, SummaryInputLimit)
  }

  /** The summary stored with the CV: the service's text, or the fixed fallback when it raised. */
  function Summarize(content: string, generate: string -> Reply): (r: string)
    ensures generate(SummaryPrompt(content)).Failed? ==> r == SummaryFailed
    ensures generate(SummaryPrompt(content)).Answered? ==> r == generate(SummaryPrompt(content)).text
  {
    match generate(SummaryPrompt(content))
    case Answered(text) => text
    case Failed => SummaryFailed
  }

  /** Only the first 2000 characters of a CV can influence its summary. */
  lemma SummarySeesOnlyPrefix(a: string, b: string, generate: string -> Reply)
    requires Take(a, SummaryInputLimit) == Take(b, SummaryInputLimit)
    ensures SummaryPrompt(a) == SummaryPrompt(b)
    ensures Summarize(a, generate) == Summarize(b, generate)
  {
  }

  // ---------------------------------------------------------------------
  // The decision for one file
  // ---------------------------------------------------------------------

  /** What happens to one uploaded file. */
  datatype Decision =
    | Reject                                              // unsupported type: "Unsupported file format"
    | Skip                                                // nothing extracted: no row is written
    | Store(content: string, fileType: string, summary: string)

  function Decide(name: string, readers: Readers, generate: string -> Reply): (d: Decision)
    ensures d.Reject? <==> !Supported(FileType(name))
    ensures d.Store? <==> Supported(FileType(name)) && Extracted(FileType(name), readers).Some?
                          && Extracted(FileType(name), readers).value != []
    ensures d.Store? ==> d.content == Extracted(FileType(name), readers).value
    ensures d.Store? ==> d.content != [] && d.fileType == FileType(name) && Supported(d.fileType)
    ensures d.Store? ==> d.summary == Summarize(d.content, generate)
  {
    var fileType := FileType(name);
    if !Supported(fileType) then Reject
    else
      var content := Extracted(fileType, readers);
      if content.Some? && content.value != [] then
        Store(content.value, fileType, Summarize(content.value, generate))
      else Skip
  }

  /** A text file is stored with its decoded text unchanged, as type "txt". */
  lemma PlainTextStoredVerbatim(base: string, text: string, readers: Readers, generate: string -> Reply)
    requires readers.utf8Text == Some(text) && text != []
    ensures Decide(base + ".txt", readers, generate) == Store(text, "txt", Summarize(text, generate))
  {
    LastSegmentAfterDot(base, "txt");
    assert base + ".txt" == base + "." + "txt";
  }

  /** The extension is matched case-insensitively: "CV.PDF" counts as a PDF. */
  lemma UpperCaseExtension(base: string)
    ensures FileType(base + ".PDF") == "pdf"
  {
    LastSegmentAfterDot(base, "PDF");
    assert base + ".PDF" == base + "." + "PDF";
  }

  /**
   * A PDF with at least one page is stored even when no page yields text:
   * every page contributes its line break, so the content is never empty.
   */
  lemma PdfWithPagesIsStored(name: string, pages: seq<string>, readers: Readers, generate: string -> Reply)
    requires FileType(name) == "pdf" && readers.pdfPages == Some(pages) && pages != []
    ensures Decide(name, readers, generate).Store?
  {
    TerminatedEmpty(pages);
  }

  /**
   * The three per-type counts of streamlit_app.py:412-414 add up to the number
   * of CVs when every row came through this gate.
   */
  lemma {:induction false} SupportedTypeCounts(cvs: seq<Cv>)
    requires forall k :: 0 <= k < |cvs| ==> Supported(cvs[k].fileType)
    ensures CountType(cvs, "pdf") + CountType(cvs, "docx") + CountType(cvs, "txt") == |cvs|
    decreases |cvs|
  {
    if cvs != [] {
      assert Supported(cvs[0].fileType);
      SupportedTypeCounts(cvs[1..]);
    }
  }

  // ---------------------------------------------------------------------
  // The upload itself
  // ---------------------------------------------------------------------

  datatype Outcome = Unsupported | NotSaved | Saved(id: nat)

  /**
   * streamlit_app.py:372-400 for one file: extract, summarize and insert.
   * The table changes only when the decision is to store, and then by
   * exactly one new row carrying the candidate name as given.
   */
  method UploadFile(store: CvTable, name: string, candidateName: string, readers: Readers,
                    generate: string -> Reply, now: string) returns (outcome: Outcome)
    requires store.Valid()
    modifies store
    ensures store.Valid()
    ensures outcome.Unsupported? <==> Decide(name, readers, generate).Reject?
    ensures outcome.Saved? <==> Decide(name, readers, generate).Store?
    ensures var d := Decide(name, readers, generate);
      if d.Store? then
        && outcome == Saved(old(store.nextId))
        && store.rows == old(store.rows)
             + [Cv(old(store.nextId), name, d.content, now, d.fileType, candidateName, d.summary)]
        && store.nextId == old(store.nextId) + 1
        && store.issued == old(store.issued) + {old(store.nextId)}
      else
        store.rows == old(store.rows) && store.nextId == old(store.nextId)
        && store.issued == old(store.issued)
  {
    var fileType := FileType(name);
    if !Supported(fileType) {
      return Unsupported;
    }
    var content := ExtractContent(fileType, readers);
    if content.Some? && content.value != [] {
      var summary := Summarize(content.value, generate);
      assert Decide(name, readers, generate) == Store(content.value, fileType, summary);
      var id := store.Insert(name, content.value, fileType, candidateName, summary, now);
      outcome := Saved(id);
    } else {
      assert Decide(name, readers, generate) == Skip;
      outcome := NotSaved;
    }
  }

  /** The dispatch of streamlit_app.py:374-379 for a supported type. */
  method ExtractContent(fileType: string, readers: Readers) returns (content: Option<string>)
    requires Supported(fileType)
    ensures content == Extracted(fileType, readers)
  {
    if fileType == "pdf" {
      content := ExtractPdfText(readers.pdfPages);
    } else if fileType == "docx" {
      content := ExtractDocxText(readers.docxParagraphs);
    } else {
      content := readers.utf8Text;
    }
  }
}
