/**
 * `get_cv_context` (streamlit_app.py:83-98): the text block that describes
 * every stored CV and is placed in front of each chat question.
 */
module CvContext {
  import opened Text
  import opened CvStore

  const NoCvsMessage := "No CVs are currently " + "uploaded in the database."
  const Header := "Available CVs in database:\n\n"
  /** `"-" * 50 + "\n\n"`, closing each CV's block. */
  const Delimiter := Repeat('-', 50) + "\n\n"
  const PreviewLength := 200

  /** `x if x else placeholder` for a text column. */
  function OrPlaceholder(s: string, placeholder: string): (r: string)
    ensures s != [] ==> r == s
    ensures s == [] ==> r == placeholder
  {
    if s == [] then placeholder else s
  }

  /** The first line of a block, the one that names the CV's id. */
  function IdLine(c: Cv): string {
    "CV ID: " + Decimal(c.id) + "\n"
  }

  function FilenameLine(c: Cv): string {
    "Filename: " + c.filename + "\n"
  }

  /** The preview line: at most 200 characters of content, then "...". */
  function PreviewLine(c: Cv): (r: string)
    ensures |r| <= |"Content Preview: "| + PreviewLength + |"...\n"|
    ensures IsPrefix("Content Preview: " + Take(c.content, PreviewLength), r)
    ensures |r| == |"Content Preview: "| + |Take(c.content, PreviewLength)| + |"...\n"|
    ensures r[|r| - 4..] == "...\n"
  {
    "Content Preview: " + Take(c.content, PreviewLength) + "...\n"
  }

  /** The six lines and the delimiter written for one CV (streamlit_app.py:90-96). */
  function BlockLines(c: Cv): (r: seq<string>)
    ensures |r| == 7 && r[0] == IdLine(c) && r[1] == FilenameLine(c) && r[6] == Delimiter
    ensures r[2] == "Candidate: " + OrPlaceholder(c.candidateName, "Not specified") + "\n"
    ensures r[3] == "Upload Date: " + c.uploadDate + "\n"
    ensures r[4] == "Summary: " + OrPlaceholder(c.summary, "No summary") + "\n"
    ensures r[5] == PreviewLine(c)
    ensures forall k :: 0 <= k < |r| ==> r[k] != [] && r[k][|r[k]| - 1] == '\n'
  {
    [ IdLine(c),
      FilenameLine(c),
      "Candidate: " + OrPlaceholder(c.candidateName, "Not specified") + "\n",
      "Upload Date: " + c.uploadDate + "\n",
      "Summary: " + OrPlaceholder(c.summary, "No summary") + "\n",
      PreviewLine(c),
      Delimiter ]
  }

  /** A line written as it is. */
  function Verbatim(line: string): string {
    line
  }

  /** The text written for one CV. */
  function Block(c: Cv): string {
    Joined(BlockLines(c), Verbatim)
  }

  /** The blocks of all CVs, in list order. */
  function Blocks(cvs: seq<Cv>): string {
    Joined(cvs, Block)
  }

  /** What `get_cv_context` returns for the listing `cvs`. */
  function Context(cvs: seq<Cv>): (r: string)
    ensures r == NoCvsMessage <==> cvs == []
  {
    if cvs == [] then NoCvsMessage
    else
      assert (Header + Blocks(cvs))[0] == Header[0] == 'A';
      assert NoCvsMessage[0] == 'N';
      Header + Blocks(cvs)
  }

  /**
   * The loop of streamlit_app.py:88-96: the header, then one block per CV,
   * appended in list order; the fixed sentence when the list is empty.
   */
  method BuildContext(cvs: seq<Cv>) returns (context: string)
    ensures context == Context(cvs)
    ensures cvs == [] ==> context == NoCvsMessage
  {
    if cvs == [] {
      return NoCvsMessage;
    }
    context := Header;
    for i := 0 to |cvs|
      invariant context == Header + Blocks(cvs[..i])
    {
      BlocksSnoc(cvs, i);
      context := context + Block(cvs[i]);
    }
    assert cvs[..|cvs|] == cvs;
  }

  /** One more pass of the loop appends exactly the next CV's block. */
  lemma BlocksSnoc(cvs: seq<Cv>, i: nat)
    requires i < |cvs|
    ensures Blocks(cvs[..i + 1]) == Blocks(cvs[..i]) + Block(cvs[i])
  {
    JoinedSnoc(cvs, i, Block);
  }

  /** A non-empty listing's context opens with the header line. */
  lemma HeaderFirst(cvs: seq<Cv>)
    requires cvs != []
    ensures IsPrefix(Header, Context(cvs))
  {
    MiddleSlice([], Header, Blocks(cvs));
  }

  /**
   * The blocks follow list order: the block of CV `i` starts right after the
   * blocks of CVs 0..i-1.
   */
  lemma BlockAt(cvs: seq<Cv>, i: nat)
    requires i < |cvs|
    ensures var start := |Blocks(cvs[..i])|;
      start + |Block(cvs[i])| <= |Blocks(cvs)|
      && Blocks(cvs)[start..start + |Block(cvs[i])|] == Block(cvs[i])
  {
    JoinedAt(cvs, i, Block);
  }

  /** Every listed CV's id line and filename line appear verbatim in the context. */
  lemma EveryCvMentioned(cvs: seq<Cv>, i: nat)
    requires i < |cvs|
    ensures IsSubstring(IdLine(cvs[i]) + FilenameLine(cvs[i]), Context(cvs))
  {
    var p, b, bs := IdLine(cvs[i]) + FilenameLine(cvs[i]), Block(cvs[i]), Blocks(cvs);
    var start := |Blocks(cvs[..i])|;
    BlockAt(cvs, i);
    BlockStartsWith(cvs[i]);
    assert bs[start..start + |p|] == bs[start..start + |b|][..|p|];
    SubstringAt(p, bs, start);
    SubstringInSuffix(p, Header, bs);
  }

  /**
   * Every line written for a listed CV (its id, filename, candidate, upload
   * date, summary and preview lines, and the delimiter) appears verbatim in
   * the context.
   */
  lemma EveryLineMentioned(cvs: seq<Cv>, i: nat, k: nat)
    requires i < |cvs| && k < 7
    ensures IsSubstring(BlockLines(cvs[i])[k], Context(cvs))
  {
    JoinedContains(BlockLines(cvs[i]), k, Verbatim);
    JoinedContains(cvs, i, Block);
    SubstringInSuffix(Block(cvs[i]), Header, Blocks(cvs));
    SubstringTrans(BlockLines(cvs[i])[k], Block(cvs[i]), Context(cvs));
  }

  /** A block opens with the id line and the filename line. */
  lemma BlockStartsWith(c: Cv)
    ensures IsPrefix(IdLine(c) + FilenameLine(c), Block(c))
  {
    var ls := BlockLines(c);
    assert Joined(ls, Verbatim) == ls[0] + Joined(ls[1..], Verbatim);
    assert Joined(ls[1..], Verbatim) == ls[1] + Joined(ls[2..], Verbatim);
    MiddleSlice([], ls[0] + ls[1], Joined(ls[2..], Verbatim));
  }

  /** Each block ends with the 50-dash delimiter and a blank line. */
  lemma BlockEndsWithDelimiter(c: Cv)
    ensures |Block(c)| >= |Delimiter|
    ensures Block(c)[|Block(c)| - |Delimiter|..] == Repeat('-', 50) + "\n\n"
  {
    var ls := BlockLines(c);
    assert ls[..7] == ls;
    JoinedSnoc(ls, 6, Verbatim);
  }
}
