# HR assistant chatbot: verified model of its CV store, context and chat logic

The HR assistant is a single Streamlit page. Through it an HR operator uploads
résumés (PDF, DOCX or plain text), keeps them in a SQLite table, and chats
with a Gemini model. Every question sent to the model carries a text block
that describes all stored CVs. This project models the logic under the user
interface:

- **CV store** (`store.dfy`, module `CvStore`). The `cvs` table is a class
  `CvTable` with the rows in insertion order, the AUTOINCREMENT counter
  `nextId`, and a ghost set `issued` of every id ever handed out. It has
  three operations. `Insert` is `save_cv_to_db`. `Delete` is `delete_cv`.
  `ListAll` is `get_all_cvs`, with `ORDER BY upload_date DESC`. The stored
  `upload_date` is the text SQLite writes for `CURRENT_TIMESTAMP`, and SQLite
  orders that text character by character (`LexLe`).
- **Context assembler** (`context.dfy`, module `CvContext`). `Context` is the
  text that `get_cv_context` returns. `BuildContext` is its accumulating loop,
  proved equal to it.
- **Extractors** (`extract.dfy`, module `Extract`). These are the page and
  paragraph loops of `extract_pdf_text` and `extract_docx_text`.
- **Upload gate** (`upload.dfy`, module `Upload`). It covers the file type
  taken from the name, the choice of extractor, the rejection of other types,
  the summary request with its fallback, and the insert that happens only
  when text was extracted.
- **Chat session** (`chat.dfy`, module `Chat`). It covers the message list,
  one question and answer, clearing, the message statistics and the export
  as text.
- **String helpers**:
  - the HTML escaping of chat messages (`html_escape.dfy`);
  - the CV search filter (`search.dfy`);
  - the shared string functions (`text.dfy`): `str.lower`, `in`,
    `str.replace`, slicing and the decimal form of an id.

The outside services are inputs to the model:

- The Gemini calls are function parameters of type `string -> Reply`. A
  `Reply` is either the answer text or `Failed`, which stands for the
  exception.
- The PDF and Word parsers are represented by the page or paragraph texts
  they yield, or `None` when they raise.
- The UTF-8 decoding of a text upload is represented by the decoded string,
  or `None` when decoding fails.
- The clock is the `now` parameter of an insert.

The model follows what the code does, including these points:

- A failed summary is stored as the text "Summary generation failed", not
  left absent.
- Each PDF page and each DOCX paragraph is followed by a line break. Line
  breaks do not separate them.
- The source has no `get(id)` operation. The model has none either. The
  membership facts about `RemoveId` state what a lookup after a delete would
  see.
- The context is not bounded: every stored CV contributes its block.

## Model

| member | source | states |
|---|---|---|
| `CvStore.CvTable.constructor` | streamlit_app.py:13-28 | A new database holds an empty table whose first id will be 1 and that has issued no id. |
| `CvStore.CvTable.Insert` | streamlit_app.py:55-63 | The new row gets an id larger than every id ever issued, deleted rows' ids included. The row is appended with exactly the given fields and `now` as its upload date. Existing rows are unchanged. |
| `CvStore.CvTable.Delete` | streamlit_app.py:75-80 | The rows become `RemoveId(old rows, id)`. The id counter and the issued ids stay as they were. The invariant holds afterwards: ids ascending, all issued, all below the counter. |
| `CvStore.RemoveId` | streamlit_app.py:78 | The result is never longer than the input. When no row has the id, the rows come back unchanged, so an unknown id is a no-op and raises no error. |
| `CvStore.RemoveIdMembers` | streamlit_app.py:78 | After a delete, a row is present exactly when it was present before and its id differs from the deleted id. |
| `CvStore.RemoveIdOnly` | streamlit_app.py:78 | When only row k carries the id, the delete removes exactly that row and keeps the other rows in order. |
| `CvStore.RemoveIdKeepsAscending` | streamlit_app.py:75-80 | After a delete, the ids still ascend along the rows, so no two rows share an id. |
| `CvStore.RemoveIdExactlyOne` | streamlit_app.py:75-80 | When ids ascend (the table invariant), deleting the id of row k yields the rows before k followed by the rows after k: one row removed, order kept. |
| `CvStore.CvTable.ListAll` | streamlit_app.py:66-72 | The listing holds every stored row exactly once (same multiset) and has upload dates non-increasing along it. |
| `CvStore.SortByDate` | streamlit_app.py:69 | `ORDER BY upload_date DESC`: the result is a permutation of the rows, newest first. |
| `CvStore.InsertByDate` | streamlit_app.py:69 | Putting one row into a newest-first list keeps it newest first and adds exactly that row. |
| `CvStore.NewestListedFirst` | streamlit_app.py:21 | A row whose upload date is strictly later than every other row's heads the listing. |
| `CvStore.LexLe` | streamlit_app.py:69 | The text order that `ORDER BY upload_date` uses compares character by character. An upload date sorts no later than any text it is a prefix of. |
| `CvStore.LexLeTotal` | streamlit_app.py:69 | Any two upload dates are comparable in SQLite's text order. |
| `CvStore.LexLeTrans` | streamlit_app.py:69 | SQLite's text order on upload dates is transitive. |
| `CvStore.LexLeAntisymmetric` | streamlit_app.py:69 | Two upload dates that are each at most the other are equal. |
| `CvStore.CountType` | streamlit_app.py:412-414 | A per-type count never exceeds the number of CVs. |
| `CvStore.CountTypeAppend` | streamlit_app.py:412-414 | The count over two lists put together is the sum of the two counts. |
| `CvStore.CountTypePermutation` | streamlit_app.py:407-414 | The per-type counts depend only on which rows exist, not on the listing order. |
| `CvContext.Context` | streamlit_app.py:83-98 | The context is the fixed sentence "No CVs are currently uploaded in the database." exactly when no CV is stored. |
| `CvContext.BlockLines` | streamlit_app.py:90-96 | A CV is written as seven lines, in this order: its id line, its filename line, "Candidate: " with the name or "Not specified", "Upload Date: " with the stored date, "Summary: " with the summary or "No summary", the preview line, and the 50-dash delimiter. Each of the seven ends with a line break. |
| `CvContext.BuildContext` | streamlit_app.py:83-98 | The loop's result equals `Context(cvs)`. An empty list gives exactly "No CVs are currently uploaded in the database.". |
| `Text.JoinedAppend` | streamlit_app.py:88-96 | Writing the blocks of two lists one after the other gives the blocks of the two lists put together. |
| `Text.JoinedSnoc` | streamlit_app.py:89-96 | One more pass of the loop appends exactly the next CV's block. |
| `CvContext.HeaderFirst` | streamlit_app.py:88 | A non-empty listing's context starts with "Available CVs in database:\n\n". |
| `Text.JoinedAt` | streamlit_app.py:89-96 | The text written for element i of a list sits right after the texts of elements 0..i-1. |
| `CvContext.BlockAt` | streamlit_app.py:89-96 | The block of CV i sits right after the blocks of CVs 0..i-1, so there is one block per CV, in list order. |
| `CvContext.EveryCvMentioned` | streamlit_app.py:90-91 | For every listed CV, "CV ID: {id}\n" followed by "Filename: {filename}\n" appears verbatim in the context. |
| `CvContext.EveryLineMentioned` | streamlit_app.py:89-96 | For every listed CV, each of its seven lines (candidate, upload date, summary and preview lines included) appears verbatim in the context. |
| `Text.JoinedContains` | streamlit_app.py:89-96 | The text written for any element of a list occurs in the joined text. |
| `Text.SubstringTrans` | streamlit_app.py:434-435 | Python's `in` on strings is transitive: a piece of a piece of a text is a piece of that text. |
| `CvContext.BlockStartsWith` | streamlit_app.py:90-91 | Each block opens with its id line and then its filename line. |
| `CvContext.BlockEndsWithDelimiter` | streamlit_app.py:96 | Each block ends with 50 '-' characters and "\n\n". |
| `CvContext.PreviewLine` | streamlit_app.py:95 | The preview line is "Content Preview: ", then the first min(200, \|content\|) characters, then "...\n": it starts with the first two, ends with the "...\n" marker, and its length is exactly the sum of the three. |
| `CvContext.OrPlaceholder` | streamlit_app.py:92-94 | An empty candidate name or summary is replaced by its placeholder. A non-empty one is kept. |
| `CvContext.BlocksSnoc` | streamlit_app.py:89-96 | One more pass of the loop appends exactly the next CV's block to the blocks written so far. |
| `Text.DecimalRoundTrip` | streamlit_app.py:90 | The decimal form of an id reads back as that id, so distinct ids print differently in the context. |
| `Text.Decimal` | streamlit_app.py:90 | The decimal form of an id is non-empty, all digits, and starts with '0' only for 0. |
| `Text.Lower` | streamlit_app.py:372 | Lower-casing keeps the length, maps each ASCII capital to its small letter, and leaves no capital. |
| `Text.Take` | streamlit_app.py:95 | `s[:n]` has length min(n, \|s\|) and is a prefix of `s`. |
| `Text.IsSubstring` | streamlit_app.py:433-435 | Python's `p in s` for strings. It holds only when `p` is no longer than `s`. |
| `Text.SubstringAt` | streamlit_app.py:433-435 | A string found at an offset satisfies Python's `in`. |
| `Text.SubstringInSuffix` | streamlit_app.py:433-435 | A string that is `in` a text is still `in` it after something is put in front. |
| `Text.SubstringHasOffset` | streamlit_app.py:433-435 | Python's `in` holds only when the string occurs at some offset. |
| `Text.ReplaceAll` | streamlit_app.py:259 | `str.replace` with a pattern replaced by itself leaves the text unchanged. |
| `Text.ReplaceAllSkips` | streamlit_app.py:259 | `str.replace` leaves a leading part alone when no occurrence starts inside it. |
| `Text.ReplaceAllMatches` | streamlit_app.py:259 | `str.replace` turns a leading occurrence of the pattern into the replacement. |
| `Extract.Terminated` | streamlit_app.py:35-36 | The extracted text is at least one character per part and ends with a line break whenever there is a part. |
| `Extract.JoinLines` | streamlit_app.py:34-37 | The accumulating loop returns each part followed by "\n", in order. |
| `Extract.ExtractPdfText` | streamlit_app.py:31-40 | A parser failure gives `None`. Otherwise the result is the page texts in order, each followed by "\n". |
| `Extract.ExtractDocxText` | streamlit_app.py:43-52 | A parser failure gives `None`. Otherwise the result is the paragraph texts in order, each followed by "\n". |
| `Extract.TerminatedAppend` | streamlit_app.py:35-36 | One more page adds exactly its text and a line break at the end. |
| `Extract.SplitTerminated` | streamlit_app.py:47-48 | When no part holds a line break, cutting the extracted text at line breaks gives the parts back. |
| `Extract.TerminatedEmpty` | streamlit_app.py:35-36 | The extracted text is empty exactly when there are no pages or paragraphs. |
| `Extract.LineEnd` | streamlit_app.py:47-48 | Returns the position of the first line break, or the length of the text when there is none. |
| `Upload.LastSegment` | streamlit_app.py:372 | `name.split('.')[-1]` is the longest dot-free suffix of the name: it ends the name, holds no '.', and is preceded by a '.' unless it is the whole name. |
| `Upload.FileType` | streamlit_app.py:372 | The file type is no longer than the name, holds no '.' and has no capital letter. |
| `Upload.LastSegmentAfterDot` | streamlit_app.py:372 | For `base + "." + ext` with a dot-free `ext`, the segment is `ext`, whatever dots `base` holds. |
| `Upload.UpperCaseExtension` | streamlit_app.py:372 | "X.PDF" has file type "pdf". |
| `Upload.TerminatedOpt` | streamlit_app.py:31-52 | An extractor yields text exactly when its parser did not raise. The text is empty exactly when the document has no pages or paragraphs. |
| `Upload.Extracted` | streamlit_app.py:374-379 | A txt upload's content is its decoded text. A pdf or docx upload has content exactly when its parser did not raise. That content is empty exactly when the document has no pages or paragraphs. |
| `Upload.ExtractContent` | streamlit_app.py:374-379 | Dispatches on "pdf", "docx" or "txt" to the matching reader. |
| `Upload.SummaryPrompt` | streamlit_app.py:387 | The summary request is the fixed instruction followed by at most 2000 characters of the CV. A CV of at most 2000 characters is embedded whole. |
| `Upload.Summarize` | streamlit_app.py:386-391 | A failed service call gives "Summary generation failed". A successful one gives the service's text. |
| `Upload.SummarySeesOnlyPrefix` | streamlit_app.py:387 | Two CVs that agree on their first 2000 characters get the same request and the same summary. |
| `Upload.Decide` | streamlit_app.py:372-400 | Rejects exactly the types other than pdf, docx and txt. Stores exactly when a supported type's extracted content is present and non-empty. A stored CV carries exactly the extracted content, the lower-cased extension and the summary of that content. |
| `Upload.PlainTextStoredVerbatim` | streamlit_app.py:378-400 | A ".txt" file with non-empty decoded text is stored with that text unchanged and type "txt". |
| `Upload.PdfWithPagesIsStored` | streamlit_app.py:374-384 | A PDF with at least one page is always stored, even when no page yields text. |
| `Upload.SupportedTypeCounts` | streamlit_app.py:412-414 | When every row has a supported type, the pdf, docx and txt counts add up to the number of CVs. |
| `Upload.UploadFile` | streamlit_app.py:372-400 | The outcome matches the decision. The table gains exactly one row, with the next id, the name, the candidate name as typed, the extracted content, the type, the summary and `now`, when the decision is to store; the id counter then advances by one and the new id joins the issued ids, so an upload after any delete still gets an id above every id ever assigned. Otherwise rows, counter and issued ids are unchanged. |
| `Chat.ChatSession.constructor` | streamlit_app.py:150-151 | A session starts with no messages. |
| `Chat.ChatSession.Submit` | streamlit_app.py:324-345 | A non-empty question appends the user turn with the question as typed. It then appends the assistant turn with the reply only if the service answered. The service receives "CV Database Context:\n" + the context of the current listing + "\n\nUser Query: " + the question. An empty question changes nothing. Every assistant turn still follows a user turn afterwards. |
| `Chat.ChatSession.Clear` | streamlit_app.py:484-486 | The message list becomes empty. |
| `Chat.OutboundPrompt` | streamlit_app.py:333 | The text sent opens with the context between its two fixed labels and ends with the question as typed. Its length is exactly that of the labelled context plus the question, so nothing else is added. |
| `Chat.ReplyTurns` | streamlit_app.py:335-339 | A successful reply adds one assistant turn with its text. A failed call adds none. |
| `Chat.CountRole` | streamlit_app.py:493-494 | A role's count never exceeds the number of messages. |
| `Chat.RoleCountsPartition` | streamlit_app.py:492-494 | User count + assistant count = total message count. |
| `Chat.UsersAtLeastAssistants` | streamlit_app.py:492-494 | In any history the session can reach, the user count is at least the assistant count. |
| `Chat.UserLead` | streamlit_app.py:492-494 | The user count leads by at least one when the last message is the user's. |
| `Chat.Label` | streamlit_app.py:512 | A user message is labelled "You" and an assistant message "Gemini". |
| `Chat.Paragraph` | streamlit_app.py:512-513 | A message's paragraph starts with its label and ": ", holds the message text verbatim between that prefix and the closing blank line, and starts with "You: " exactly when the user wrote it. |
| `Chat.Transcript` | streamlit_app.py:510-513 | The export of a non-empty history opens with the first message's paragraph. |
| `Chat.ExportChat` | streamlit_app.py:510-513 | The export loop returns `Transcript(msgs)`: for each message in order, "You" for the user or "Gemini" otherwise, then ": ", the text and "\n\n". |
| `Text.JoinedSplit` | streamlit_app.py:510-513 | The export of a history is the export of messages 0..i-1, then message i's paragraph, then the export of the rest. |
| `Chat.ParagraphAt` | streamlit_app.py:510-513 | Message i's paragraph sits in the export right after the paragraphs of messages 0..i-1. |
| `HtmlEscape.EscapeHtml` | streamlit_app.py:259 | The escaped message holds no line break, and every '<' in it starts "<br>". |
| `HtmlEscape.EscapeRoundTrip` | streamlit_app.py:259 | Undoing "<br>", "&lt;", "&gt;" and then "&amp;" gives back the original message, so the escaping loses nothing. |
| `HtmlEscape.EscapeIsEncode` | streamlit_app.py:259 | The four replaces write each of '&', '<', '>' and line break as its entity and leave every other character alone. |
| `HtmlEscape.EncodeStep` | streamlit_app.py:259 | One replace whose pattern lines up with the token boundaries rewrites the text one token at a time. |
| `HtmlEscape.EncodeNothing` | streamlit_app.py:259 | Encoding no character leaves the text as it is. |
| `HtmlEscape.EncodedShape` | streamlit_app.py:259 | Fully encoded text has no line break and opens "<br>" at every '<'. |
| `HtmlEscape.DecodeStages` | streamlit_app.py:259 | Each of the four decoding replaces matches exactly the entity it undoes and no part of any other token. |
| `Search.Matches` | streamlit_app.py:433-435 | A CV matches only when the term is no longer than its filename or its candidate name. |
| `Search.KeepMatching` | streamlit_app.py:433-435 | The result keeps list order as a subsequence of the CVs. It holds exactly the CVs whose lower-cased filename or candidate name contains the lower-cased term, each matching CV as many times as in the input and every other CV zero times. |
| `Search.FilterCvs` | streamlit_app.py:432-437 | An empty term returns the list unchanged. Otherwise the result is the order-preserving subsequence of exactly the matching CVs, each with its multiplicity in the input. |
| `Search.EmptyTermMatchesAll` | streamlit_app.py:432-437 | The empty term matches every CV, so the guard on an empty term changes no result. |
| `Search.MatchIgnoresCase` | streamlit_app.py:433-435 | Matching with a term and with its lower-cased form agree. |

## Left out

- The Streamlit page is not modelled: layout, tabs, CSS, the auto-scroll script, spinners, messages to the user, `st.rerun`, the "Preview" button's `content[:500]` and the expander labels. These are presentation only.
- The Gemini client is not modelled: configuring it, `start_chat`, the model's own chat history and `generate_content`. Each call is an opaque answer-or-failure given as a function of the text sent.
- `Chat.ChatSession.Clear`: recreating the service-side chat handle (streamlit_app.py:485) is outside the model. Only the message list is reset.
- SQLite itself is not modelled: connections, commits, durability across restarts, and errors from the database. `CvTable.constructor` models a fresh, empty database file only.
- `CvStore.CvTable.Insert`: SQLite's limit on the largest row id, where AUTOINCREMENT fails with SQLITE_FULL, is not modelled. Ids are unbounded.
- `CvStore.CvTable.ListAll`: SQLite does not define the order of rows with equal upload dates. The contract states only "permutation, newest first". `SortByDate` picks one of the allowed orders.
- The clock and the format of `CURRENT_TIMESTAMP` are not modelled. The upload date is the `now` text passed to an insert.
- `Text.Lower`: only ASCII letters are lower-cased. Python's Unicode case mapping is not modelled.
- The PDF and Word parsers and the UTF-8 decoder are foreign libraries. Their results are inputs, `None` where they raise.
- `Upload.UploadFile`: for a text upload that is not valid UTF-8, the source raises an uncaught exception and ends the page run. The model reports `NotSaved`. Either way no row is written.
- The loop over several selected files with one button each (streamlit_app.py:367-369) is not modelled. `UploadFile` handles the one file whose button was pressed.
- Loading `secrets.toml` and the API key is not modelled. It is configuration and I/O.
- The system instruction text of the chat model is not modelled. It is a constant handed to the service.
