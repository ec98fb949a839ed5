/**
 * The inference client (main.py lines 39-54 and 86-110): the prompt sent to
 * the local Ollama server, the text `generate_response` makes of the server's
 * answer or failure, and the trimmed reply `deepseek_inference` hands back.
 * The HTTP exchange itself is a parameter: `service` maps a prompt to what the
 * POST to /api/generate produced, and `serviceUp` is the cached result of the
 * GET to /api/tags that `initialize_model` performs.
 */
module Inference {
  import opened Wrappers
  import opened PyStr

  const ContextLabel: string := "Context: "
  const QuestionLabel: string := "Question: "
  const ContextInstruction: string :=
    "Please provide a detailed answer based on the context above. If the answer cannot be found in the context, please say so."
  const GeneralInstruction: string :=
    "Please provide a detailed answer. Feel free to use markdown formatting for better readability."

  /** Where the question starts in the prompt built for a context. */
  function QueryStart(context: string): nat
  {
    if context == [] then |QuestionLabel| else |ContextLabel| + |context| + 2 + |QuestionLabel|
  }

  /** The instruction that closes the prompt built for a context. */
  function Instruction(context: string): string
  {
    if context == [] then GeneralInstruction else ContextInstruction
  }

  /** The f-string templates of `deepseek_inference`: a context-grounded question when a context is present, an open question otherwise. */
  function BuildPrompt(query: string, context: string): string
  {
    if context != [] then
      ContextLabel + context + "\n\n" + QuestionLabel + query + "\n\n" + ContextInstruction
    else
      QuestionLabel + query + "\n\n" + GeneralInstruction
  }

  /** The prompt for a non-empty context: "Context: ", the context, a blank line, "Question: ", the question, a blank line, and the context instruction. */
  lemma PromptWithContext(query: string, context: string)
    requires context != []
    ensures var prompt := BuildPrompt(query, context);
            var q := QueryStart(context);
            |prompt| == q + |query| + 2 + |ContextInstruction|
            && prompt[..|ContextLabel|] == ContextLabel
            && prompt[|ContextLabel|..|ContextLabel| + |context|] == context
            && prompt[|ContextLabel| + |context|..q - |QuestionLabel|] == "\n\n"
            && prompt[q - |QuestionLabel|..q] == QuestionLabel
            && prompt[q..q + |query|] == query
            && prompt[q + |query|..q + |query| + 2] == "\n\n"
            && prompt[q + |query| + 2..] == ContextInstruction
  {
    var q := QueryStart(context);
    var head := ContextLabel + context + "\n\n" + QuestionLabel;
    var prompt := head + query + "\n\n" + ContextInstruction;
    assert |head| == q;
    assert prompt[..|ContextLabel|] == ContextLabel;
    assert prompt[|ContextLabel|..|ContextLabel| + |context|] == context;
    assert prompt[|ContextLabel| + |context|..q - |QuestionLabel|] == "\n\n";
    assert prompt[q - |QuestionLabel|..q] == QuestionLabel;
    assert prompt[q..q + |query|] == query;
    assert prompt[q + |query|..q + |query| + 2] == "\n\n";
  }

  /** The prompt without a context: "Question: ", the question, a blank line, and the general instruction. */
  lemma PromptWithoutContext(query: string)
    ensures var prompt := BuildPrompt(query, []);
            |prompt| == |QuestionLabel| + |query| + 2 + |GeneralInstruction|
            && prompt[..|QuestionLabel|] == QuestionLabel
            && prompt[|QuestionLabel|..|QuestionLabel| + |query|] == query
            && prompt[|QuestionLabel| + |query|..|QuestionLabel| + |query| + 2] == "\n\n"
            && prompt[|QuestionLabel| + |query| + 2..] == GeneralInstruction
  {
    var prompt := QuestionLabel + query + "\n\n" + GeneralInstruction;
    assert prompt[..|QuestionLabel|] == QuestionLabel;
    assert prompt[|QuestionLabel|..|QuestionLabel| + |query|] == query;
    assert prompt[|QuestionLabel| + |query|..|QuestionLabel| + |query| + 2] == "\n\n";
  }

  /**
   * The prompt starts with "Context: " exactly when the context is not empty;
   * the context follows that label verbatim, the question follows "Question: "
   * verbatim, each is followed by a blank line, and the prompt ends with the
   * instruction for its case.
   */
  lemma BuildPromptSpec(query: string, context: string)
    ensures var prompt := BuildPrompt(query, context);
            |prompt| == QueryStart(context) + |query| + 2 + |Instruction(context)|
            && (context != [] <==> StartsWith(prompt, ContextLabel))
            && (context != [] ==> prompt[|ContextLabel|..|ContextLabel| + |context|] == context)
            && (context != [] ==> prompt[|ContextLabel| + |context|..|ContextLabel| + |context| + 2] == "\n\n")
            && prompt[QueryStart(context)..QueryStart(context) + |query|] == query
            && prompt[QueryStart(context) - |QuestionLabel|..QueryStart(context)] == QuestionLabel
            && prompt[QueryStart(context) + |query|..QueryStart(context) + |query| + 2] == "\n\n"
            && EndsWith(prompt, Instruction(context))
            && Contains(prompt, query) && Contains(prompt, context)
  {
    var prompt := BuildPrompt(query, context);
    if context != [] {
      PromptWithContext(query, context);
      assert OccursAt(prompt, query, QueryStart(context));
      assert OccursAt(prompt, context, |ContextLabel|);
    } else {
      PromptWithoutContext(query);
      assert prompt[0] != ContextLabel[0];
      assert OccursAt(prompt, query, |QuestionLabel|);
      assert OccursAt(prompt, context, 0);
    }
  }

  /** For contexts of equal length, the prompt determines both the question and the context. */
  lemma PromptDeterminesInputs(q1: string, c1: string, q2: string, c2: string)
    requires |c1| == |c2|
    requires BuildPrompt(q1, c1) == BuildPrompt(q2, c2)
    ensures q1 == q2 && c1 == c2
  {
    if c1 != [] {
      PromptWithContext(q1, c1);
      PromptWithContext(q2, c2);
    } else {
      PromptWithoutContext(q1);
      PromptWithoutContext(q2);
    }
  }

  /** The answer of the POST to /api/generate: its status, its body text, and the `response` field of its JSON body (or the exception reading it raises). */
  datatype HttpReply = HttpReply(status: nat, text: string, responseField: Result<string>)

  /** What `requests.post` produced: a reply, or an exception (connection refused, ...) with its message. */
  datatype ServiceOutcome = Replied(reply: HttpReply) | Raised(detail: string)

  /** The fixed reply when the server is down; written in three pieces so that reasoning about its characters stays small. */
  const CannotConnect: string := "Cannot connect to Ollama. " + "Please make sure the " + "Ollama service is running."
  const StatusErrorPrefix: string := "Error: "
  const StatusErrorSeparator: string := " - "
  const GenerateErrorPrefix: string := "Error generating response: "

  /** `generate_response`: the `response` field on status 200; otherwise a diagnostic string, never an exception. */
  function GenerateResponse(outcome: ServiceOutcome): string
  {
    match outcome
    case Raised(detail) => GenerateErrorPrefix + detail
    case Replied(HttpReply(status, text, field)) =>
      if status == 200 then
        match field
        case Success(value) => value
        case Failure(error) => GenerateErrorPrefix + error
      else
        StatusErrorPrefix + DecimalString(status) + StatusErrorSeparator + text
  }

  /**
   * The reply text is the `response` field only for a 200 status with a
   * readable field; every failure gives a diagnostic that names its cause:
   * the exception's message, or the status and the body of the reply.
   */
  lemma GenerateResponseSpec(outcome: ServiceOutcome)
    ensures outcome.Replied? && outcome.reply.status == 200 && outcome.reply.responseField.Success? ==>
              GenerateResponse(outcome) == outcome.reply.responseField.value
    ensures outcome.Replied? && outcome.reply.status == 200 && outcome.reply.responseField.Failure? ==>
              StartsWith(GenerateResponse(outcome), GenerateErrorPrefix)
              && EndsWith(GenerateResponse(outcome), outcome.reply.responseField.error)
              && |GenerateResponse(outcome)| == |GenerateErrorPrefix| + |outcome.reply.responseField.error|
    ensures outcome.Raised? ==>
              StartsWith(GenerateResponse(outcome), GenerateErrorPrefix) && EndsWith(GenerateResponse(outcome), outcome.detail)
              && |GenerateResponse(outcome)| == |GenerateErrorPrefix| + |outcome.detail|
    ensures outcome.Replied? && outcome.reply.status != 200 ==>
              StartsWith(GenerateResponse(outcome), StatusErrorPrefix)
              && EndsWith(GenerateResponse(outcome), StatusErrorSeparator + outcome.reply.text)
  {
    match outcome
    case Raised(detail) =>
      ConcatEnds(GenerateErrorPrefix, detail);
    case Replied(HttpReply(status, text, field)) =>
      if status != 200 {
        var digits := DecimalString(status);
        var tail := StatusErrorSeparator + text;
        assert GenerateResponse(outcome) == StatusErrorPrefix + (digits + tail);
        ConcatEnds(StatusErrorPrefix, digits + tail);
        ConcatEnds(StatusErrorPrefix + digits, tail);
      } else if field.Failure? {
        ConcatEnds(GenerateErrorPrefix, field.error);
      }
  }

  /** Between "Error: " and " - " the diagnostic of a rejected request holds exactly `str(status)`, which reads back as the status code. */
  lemma StatusReadableFromDiagnostic(status: nat, text: string, field: Result<string>)
    requires status != 200
    ensures var r := GenerateResponse(Replied(HttpReply(status, text, field)));
            var tail := StatusErrorSeparator + text;
            |StatusErrorPrefix| < |r| - |tail|
            && r[|StatusErrorPrefix|..|r| - |tail|] == DecimalString(status)
            && DecimalValue(r[|StatusErrorPrefix|..|r| - |tail|]) == status
  {
    var digits := DecimalString(status);
    var r := GenerateResponse(Replied(HttpReply(status, text, field)));
    assert r == StatusErrorPrefix + digits + (StatusErrorSeparator + text);
    assert r[|StatusErrorPrefix|..|r| - |StatusErrorSeparator + text|] == digits;
    DecimalRoundTrip(status);
  }

  /** The reply of `deepseek_inference` (lines 86-106): the fixed message when the server is down, else the trimmed result of `generate_response` on the prompt. */
  function Infer(query: string, context: string, serviceUp: bool, service: string -> ServiceOutcome): string
  {
    if !serviceUp then CannotConnect else Strip(GenerateResponse(service(BuildPrompt(query, context))))
  }

  /** The fixed message holds no '<', and it neither starts nor ends with whitespace. */
  lemma CannotConnectText()
    ensures forall k :: 0 <= k < |CannotConnect| ==> CannotConnect[k] != '<'
    ensures Strip(CannotConnect) == CannotConnect
  {
    var a, b, c := "Cannot connect to Ollama. ", "Please make sure the ", "Ollama service is running.";
    forall k | 0 <= k < |CannotConnect|
      ensures CannotConnect[k] != '<'
    {
      if k < |a| {
        assert CannotConnect[k] == a[k];
      } else if k < |a| + |b| {
        assert CannotConnect[k] == b[k - |a|];
      } else {
        assert CannotConnect[k] == c[k - |a| - |b|];
      }
    }
    assert CannotConnect[0] == 'C' && CannotConnect[|CannotConnect| - 1] == '.';
    StripTrimmed(CannotConnect);
  }

  /** When the server is down the reply is the fixed message; in every case it carries no surrounding whitespace. */
  lemma InferSpec(query: string, context: string, serviceUp: bool, service: string -> ServiceOutcome)
    ensures !serviceUp ==> Infer(query, context, serviceUp, service) == CannotConnect
    ensures Strip(Infer(query, context, serviceUp, service)) == Infer(query, context, serviceUp, service)
  {
    if serviceUp {
      StripIdempotent(GenerateResponse(service(BuildPrompt(query, context))));
    } else {
      CannotConnectText();
    }
  }

  /** A server that answers with status 200 and a `response` field: the reply is that field, trimmed. */
  lemma InferAnswered(query: string, context: string, service: string -> ServiceOutcome, text: string, answer: string)
    requires service(BuildPrompt(query, context)) == Replied(HttpReply(200, text, Success(answer)))
    ensures Infer(query, context, true, service) == Strip(answer)
  {
  }
}
