/**
 * The chat session: the message list kept in the session state
 * (streamlit_app.py:150-151), one question and its answer
 * (streamlit_app.py:324-345), clearing (streamlit_app.py:484-486), the
 * message statistics (streamlit_app.py:492-494) and the export as text
 * (streamlit_app.py:510-513).
 */
module Chat {
  import opened Text
  import opened CvStore
  import opened CvContext

  datatype Role = User | Assistant

  datatype Message = Message(role: Role, content: string)

  /** The text sent to the service: the CV context, then the question (streamlit_app.py:333). */
  function OutboundPrompt(context: string, prompt: string): (r: string)
    ensures IsPrefix("CV Database Context:\n" + context + "\n\nUser Query: ", r)
    ensures |prompt| <= |r| && r[|r| - |prompt|..] == prompt
    ensures |r| == |"CV Database Context:\n" + context + "\n\nUser Query: "| + |prompt|
  {
    "CV Database Context:\n" + context + "\n\nUser Query: " + prompt
  }

  /** The turns a reply adds: the assistant's answer, or nothing when the call raised. */
  function ReplyTurns(reply: Reply): (r: seq<Message>)
    ensures reply.Answered? ==> r == [Message(Assistant, reply.text)]
    ensures reply.Failed? ==> r == []
  {
    if reply.Answered? then [Message(Assistant, reply.text)] else []
  }

  /** Every assistant message directly follows a user message. */
  predicate WellFormed(msgs: seq<Message>) {
    forall i :: 0 <= i < |msgs| && msgs[i].role == Assistant ==> 0 < i && msgs[i - 1].role == User
  }

  class ChatSession {
    /** `st.session_state.messages`, oldest first. */
    var messages: seq<Message>

    ghost predicate Valid()
      reads this
    {
      WellFormed(messages)
    }

    /** The session starts with no messages (streamlit_app.py:150-151). */
    constructor ()
      ensures Valid() && messages == []
    {
      messages := [];
    }

    /**
     * One submitted question (streamlit_app.py:324-345). The question is
     * recorded before the service is called, as typed and not as sent; the
     * service receives the context of the current listing followed by the
     * question; the answer is recorded only when the call succeeds. An empty
     * submission changes nothing.
     */
    method Submit(prompt: string, store: CvTable, send: string -> Reply)
      requires Valid()
      modifies this
      ensures Valid()
      ensures prompt == [] ==> messages == old(messages)
      ensures prompt != [] ==>
        messages == old(messages) + [Message(User, prompt)]
                    + ReplyTurns(send(OutboundPrompt(Context(store.ListAll()), prompt)))
    {
      if prompt == [] {
        return;
      }
      messages := messages + [Message(User, prompt)];
      var context := BuildContext(store.ListAll());
      var reply := send(OutboundPrompt(context, prompt));
      if reply.Answered? {
        messages := messages + [Message(Assistant, reply.text)];
      }
    }

    /** "Clear Chat" (streamlit_app.py:484-486): the message list becomes empty. */
    method Clear()
      modifies this
      ensures Valid() && messages == []
    {
      messages := [];
    }
  }

  // ---------------------------------------------------------------------
  // Statistics (streamlit_app.py:492-494)
  // ---------------------------------------------------------------------

  /** `len([m for m in messages if m["role"] == role])`. */
  function CountRole(msgs: seq<Message>, role: Role): (n: nat)
    ensures n <= |msgs|
    decreases |msgs|
  {
    if msgs == [] then 0
    else CountRole(msgs[..|msgs| - 1], role) + (if msgs[|msgs| - 1].role == role then 1 else 0)
  }

  /** Every message is either the user's or the assistant's. */
  lemma {:induction false} RoleCountsPartition(msgs: seq<Message>)
    ensures CountRole(msgs, User) + CountRole(msgs, Assistant) == |msgs|
    decreases |msgs|
  {
    if msgs != [] {
      RoleCountsPartition(msgs[..|msgs| - 1]);
    }
  }

  /** In a well-formed history there are never more answers than questions. */
  lemma UsersAtLeastAssistants(msgs: seq<Message>)
    requires WellFormed(msgs)
    ensures CountRole(msgs, User) >= CountRole(msgs, Assistant)
  {
    UserLead(msgs);
  }

  /** The user leads by at least one when the last message is the user's. */
  lemma {:induction false} UserLead(msgs: seq<Message>)
    requires WellFormed(msgs)
    ensures CountRole(msgs, User) - CountRole(msgs, Assistant)
            >= (if msgs != [] && msgs[|msgs| - 1].role == User then 1 else 0)
    decreases |msgs|
  {
    if msgs != [] {
      var init := msgs[..|msgs| - 1];
      assert WellFormed(init) by {
        forall i | 0 <= i < |init| && init[i].role == Assistant
          ensures 0 < i && init[i - 1].role == User
        {
          assert msgs[i] == init[i];
        }
      }
      UserLead(init);
      if msgs[|msgs| - 1].role == Assistant {
        assert init[|init| - 1] == msgs[|msgs| - 2];
      }
    }
  }

  // ---------------------------------------------------------------------
  // Export (streamlit_app.py:510-513)
  // ---------------------------------------------------------------------

  /** Who wrote a message, as the export names them. */
  function Label(role: Role): (r: string)
    ensures role == User ==> r == "You"
    ensures role == Assistant ==> r == "Gemini"
  {
    if role == User then "You" else "Gemini"
  }

  /** One message in the exported log: its label, a colon, the text and a blank line. */
  function Paragraph(m: Message): (r: string)
    ensures m.role == User <==> IsPrefix("You: ", r)
    ensures IsPrefix(Label(m.role) + ": ", r)
    ensures |Label(m.role)| + 2 <= |r| - 2 && r[|Label(m.role)| + 2..|r| - 2] == m.content
    ensures |r| >= 4 && r[|r| - 2..] == "\n\n"
  {
    var r := Label(m.role) + ": " + m.content + "\n\n";
    MiddleSlice(Label(m.role) + ": ", m.content, "\n\n");
    assert m.role == User ==> r[..5] == "You: ";
    assert m.role != User ==> r[0] == 'G' != "You: "[0];
    r
  }

  /** The exported log: one paragraph per message, oldest first. */
  function Transcript(msgs: seq<Message>): (r: string)
    ensures msgs != [] ==> IsPrefix(Paragraph(msgs[0]), r)
  {
    if msgs == [] then []
    else
      MiddleSlice([], Paragraph(msgs[0]), Joined(msgs[1..], Paragraph));
      Joined(msgs, Paragraph)
  }

  /** The "Export Chat" loop: the paragraphs appended in message order. */
  method ExportChat(msgs: seq<Message>) returns (text: string)
    ensures text == Transcript(msgs)
  {
    text := "";
    for i := 0 to |msgs|
      invariant text == Transcript(msgs[..i])
    {
      JoinedSnoc(msgs, i, Paragraph);
      text := text + Paragraph(msgs[i]);
    }
    assert msgs[..|msgs|] == msgs;
  }

  /** Message `i` appears in the export as its own paragraph, right after those of messages 0..i-1. */
  lemma ParagraphAt(msgs: seq<Message>, i: nat)
    requires i < |msgs|
    ensures var start := |Transcript(msgs[..i])|;
      start + |Paragraph(msgs[i])| <= |Transcript(msgs)|
      && Transcript(msgs)[start..start + |Paragraph(msgs[i])|] == Paragraph(msgs[i])
  {
    JoinedAt(msgs, i, Paragraph);
  }
}
