/**
 * The session state of the chat page and the transitions main.py performs on
 * it: `handle_send` (lines 112-133), the "Clear Chat History" button (lines
 * 399-400), and the per-turn text the page displays (lines 312-319 for the
 * conversation, 393-396 for the sidebar history).  Streamlit keeps this state
 * in `st.session_state` across reruns; here it is an object whose fields the
 * methods update.
 */
module Session {
  import opened Wrappers
  import opened PyStr
  import opened Thinking
  import opened Inference
  import opened Documents

  /** One exchange: what the user sent, the reply stored for it, and `time.time()` when it was stored. */
  datatype Turn = Turn(user: string, bot: string, timestamp: real)

  /** The context of a submission (line 114): the text of the upload when there is one, the empty string otherwise. */
  function ContextOf(upload: Option<Upload>, parsers: Parsers): Result<string>
  {
    match upload
    case None => Success([])
    case Some(file) => ProcessFile(file, parsers)
  }

  /** The reply `handle_send` stores: the inference result, with the reasoning hidden when the toggle is off. */
  function StoredReply(input: string, context: string, showThinking: bool,
                       serviceUp: bool, service: string -> ServiceOutcome): string
  {
    HideThinking(showThinking, Infer(input, context, serviceUp, service))
  }

  /** With the server down the stored reply is the fixed connection message, whatever the toggle says. */
  lemma ServiceDownStoresCannotConnect(input: string, context: string, showThinking: bool,
                                       service: string -> ServiceOutcome)
    ensures StoredReply(input, context, showThinking, false, service) == CannotConnect
  {
    InferSpec(input, context, false, service);
    CannotConnectText();
    assert StartMarker[0] == '<';
    NotContainsByChar(CannotConnect, StartMarker, 0);
  }

  /** A server answering 200 with a `response` field that mentions no `<think>` (or any field, with the toggle on): the stored reply is that field, trimmed. */
  lemma StoredReplyOfAnswer(input: string, context: string, showThinking: bool,
                            service: string -> ServiceOutcome, text: string, answer: string)
    requires service(BuildPrompt(input, context)) == Replied(HttpReply(200, text, Success(answer)))
    requires showThinking || !Contains(answer, StartMarker)
    ensures StoredReply(input, context, showThinking, true, service) == Strip(answer)
  {
    InferAnswered(input, context, service, text, answer);
    if !showThinking {
      StripKeepsAbsence(answer, StartMarker);
    }
  }

  class ChatSession {
    /** `st.session_state.messages`, oldest first. */
    var messages: seq<Turn>
    /** `st.session_state.user_message`, the text area's content. */
    var userMessage: string
    /** `st.session_state.show_thinking`, the "Show Thinking Process" toggle. */
    var showThinking: bool

    /** Every stored turn was sent with text that is not blank. */
    ghost predicate Valid()
      reads this
    {
      forall i :: 0 <= i < |messages| ==> !IsBlank(messages[i].user)
    }

    /** The first run of the page (lines 143-152): no turns, an empty input, reasoning shown. */
    constructor ()
      ensures Valid()
      ensures messages == [] && userMessage == [] && showThinking
    {
      messages := [];
      userMessage := [];
      showThinking := true;
    }

    /**
     * `handle_send`, run when "Send" is clicked.  A blank input changes
     * nothing.  Otherwise the upload (if any) is processed into a context; an
     * exception from a parser escapes (`raised`) and nothing changes; else
     * exactly one turn is appended, holding the untrimmed input and the stored
     * reply, and the input is cleared.  `serviceUp`, `service` and `now` stand
     * for `initialize_model()`, the HTTP call and `time.time()`.
     */
    method HandleSend(upload: Option<Upload>, parsers: Parsers, serviceUp: bool,
                      service: string -> ServiceOutcome, now: real) returns (raised: Option<string>)
      requires Valid()
      modifies this`messages, this`userMessage
      ensures Valid()
      ensures IsBlank(old(userMessage)) ==>
                raised == None && messages == old(messages) && userMessage == old(userMessage)
      ensures !IsBlank(old(userMessage)) && ContextOf(upload, parsers).Failure? ==>
                raised == Some(ContextOf(upload, parsers).error)
                && messages == old(messages) && userMessage == old(userMessage)
      ensures !IsBlank(old(userMessage)) && ContextOf(upload, parsers).Success? ==>
                raised == None && userMessage == []
                && messages == old(messages) + [Turn(old(userMessage),
                     StoredReply(old(userMessage), ContextOf(upload, parsers).value, showThinking, serviceUp, service),
                     now)]
    {
      if HasText(userMessage) {
        var context := ContextOf(upload, parsers);
        if context.Failure? {
          return Some(context.error);
        }
        var user := userMessage;
        var response := StoredReply(user, context.value, showThinking, serviceUp, service);
        var turn := Turn(user, response, now);
        assert !IsBlank(turn.user);
        messages := messages + [turn];
        userMessage := [];
      }
      return None;
    }

    /** The "Clear Chat History" button: the turns are dropped, whatever they were. */
    method ClearHistory()
      requires Valid()
      modifies this`messages
      ensures Valid()
      ensures messages == []
    {
      messages := [];
    }

    /** The bot text shown for each turn (lines 312-319): the stored reply, with the reasoning hidden again when the toggle is now off. */
    method DisplayedReplies() returns (views: seq<string>)
      ensures |views| == |messages|
      ensures forall i :: 0 <= i < |messages| ==> views[i] == HideThinking(showThinking, messages[i].bot)
    {
      views := [];
      for i := 0 to |messages|
        invariant |views| == i
        invariant forall j :: 0 <= j < i ==> views[j] == HideThinking(showThinking, messages[j].bot)
      {
        var botMessage := messages[i].bot;
        if !showThinking && Contains(botMessage, StartMarker) {
          botMessage := HideThinking(false, botMessage);
        }
        views := views + [botMessage];
      }
    }

    /** The sidebar history (lines 393-396): the user text of each turn whose text is not blank, which in a valid session is every turn. */
    method HistoryItems() returns (items: seq<string>)
      requires Valid()
      ensures |items| == |messages|
      ensures forall i :: 0 <= i < |messages| ==> items[i] == messages[i].user
    {
      items := [];
      for i := 0 to |messages|
        invariant |items| == i
        invariant forall j :: 0 <= j < i ==> items[j] == messages[j].user
      {
        var user := messages[i].user;
        if HasText(user) {
          items := items + [user];
        }
      }
    }
  }
}
