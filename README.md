# Raznet Chat — a Dafny model of the chat front end's logic

Raznet Chat is a single-page Streamlit application (`main.py`). A user types
a question, optionally uploads a document whose text becomes the context, and
the page asks a local Ollama server running `deepseek-r1:1.5b` for an answer.
Each exchange is stored as a turn in the session. The "Show Thinking Process"
toggle decides whether the model's reasoning, which sits between `<think>` and
`</think>`, is kept in replies.

This project models the logic beneath the page:

- `wrappers.dfy`: `Option` and `Result`.
- `pystr.dfy` (module `PyStr`): the Python `str` operations the page relies
  on. These are `strip()` (with the exact `str.isspace()` character set),
  substring `in`, `split(sep)`, `split(sep)[-1]`, `sep.join(...)` and
  `str(n)`, with their defining properties proved.
- `thinking.dfy` (module `Thinking`): removing the reasoning segment from a
  reply. This happens when a reply is stored (`handle_send`) and again when
  it is displayed.
- `inference.dfy` (module `Inference`): the two prompt templates of
  `deepseek_inference`, the strings `generate_response` returns on success
  and on each failure, and the trimmed reply.
- `documents.dfy` (module `Documents`): the media-type dispatch of
  `process_file` and `get_file_preview`, the newline joins, and the
  1000-character preview.
- `session.dfy` (module `Session`): the session state as a class,
  `ChatSession`, with fields `messages`, `userMessage` and `showThinking`.
  Its methods are `handle_send`, the "Clear Chat History" button, and the two
  loops that render the conversation and the sidebar history.
  `Valid()` is the invariant the methods keep: every stored turn was sent
  with text that is not blank.

The outside world enters as parameters:

- `serviceUp` is the cached result of `initialize_model()`.
- `service` maps a prompt to what the POST to `/api/generate` produced: a
  reply with a status, a body and a `response` field, or an exception.
- `Parsers` bundles the PDF, Word and pandas readers. Each either returns
  its text or raises; a raise is a `Failure` carrying the exception's
  message.
- `now` stands for `time.time()`.

Three behaviours of the code that the model keeps:

- `process_file` has no `try`. A parser's exception escapes `handle_send`,
  and no turn is stored (`HandleSend` returns it as `raised`). Only
  `get_file_preview` turns a parser's exception into a diagnostic string.
- The reasoning is hidden only when the reply contains `<think>`. It is
  not hidden merely because the reply contains `</think>`. The kept text is
  what follows the LAST `</think>`, trimmed. A reply with `<think>` and no
  `</think>` is only trimmed.
- A Word document gets no preview. `get_file_preview` tests plain text
  before tables, while `process_file` tests tables first.

## Model

| member | source | states |
|---|---|---|
| PyStr.TrimStartSpec | main.py:113 | the leading half of `strip()` drops a prefix of whitespace characters only and stops at the first non-whitespace character |
| PyStr.TrimEndSpec | main.py:113 | the trailing half of `strip()` drops a suffix of whitespace characters only and stops at the last non-whitespace character |
| PyStr.StripSpec | main.py:106 | `s.strip()` is `s` minus a blank prefix and a blank suffix, and it neither starts nor ends with whitespace |
| PyStr.StripIdempotent | main.py:126 | stripping an already stripped string changes nothing |
| PyStr.StripEmptyIffBlank | main.py:113 | `s.strip()` is empty exactly when `s` is blank |
| PyStr.HasText | main.py:113 | the truth value of `s.strip()` holds exactly when `s` is not blank |
| PyStr.StripKeepsAbsence | main.py:126 | stripping cannot create an occurrence of a substring |
| PyStr.FindFirstSpec | main.py:125 | the substring search finds an occurrence exactly when `sub in s`, and finds the leftmost one |
| PyStr.SplitSpec | main.py:126 | no piece of `s.split(sep)` contains `sep` |
| PyStr.LastPieceSpec | main.py:126 | `s.split(sep)[-1]` is a suffix of `s` free of `sep`; it is all of `s` exactly when `sep` is absent, and otherwise it is preceded directly by an occurrence of `sep` |
| PyStr.JoinSplit | main.py:126 | joining the pieces of a split with the same separator gives back the original string |
| PyStr.SplitJoin | main.py:73-76 | splitting a join on a one-character separator (the "\n" joins of PDF pages and Word paragraphs) gives back the pieces, provided none contains the separator |
| PyStr.DecimalString | main.py:52 | `str(n)` is a non-empty string of decimal digits with no leading zero |
| PyStr.DecimalRoundTrip | main.py:52 | reading back the digits `str(n)` writes gives `n` |
| Thinking.HideThinkingSpec | main.py:125-126 | with the toggle on, or without `<think>`, the reply is unchanged; otherwise the result contains no `</think>` |
| Thinking.EndMarkerDoesNotOverlap | main.py:126 | two occurrences of `</think>` cannot overlap |
| Thinking.HiddenReplyIsTextAfterLastEndMarker | main.py:125-126 | with the toggle off, a reply mentioning `<think>` becomes the trimmed text after the last `</think>`, or the whole reply trimmed when there is no `</think>` |
| Thinking.StoredReplyDisplaysUnchanged | main.py:318-319 | a reply stored with the toggle off is displayed exactly as stored, whatever the toggle says at display time |
| Inference.PromptWithContext | main.py:94-99 | with a context, the prompt is exactly "Context: ", the context, "\n\n", "Question: ", the question, "\n\n", and the context-only instruction, each at a stated position |
| Inference.PromptWithoutContext | main.py:100-103 | without a context, the prompt is exactly "Question: ", the question, "\n\n", and the general instruction, each at a stated position |
| Inference.BuildPromptSpec | main.py:94-103 | the prompt starts with "Context: " exactly when the context is not empty, contains the question and the context verbatim, each followed by a blank line, and ends with the instruction for its case |
| Inference.PromptDeterminesInputs | main.py:94-103 | for contexts of equal length, equal prompts come from equal questions and equal contexts |
| Inference.GenerateResponseSpec | main.py:49-54 | a 200 reply yields its `response` field; an unreadable field or an exception yields "Error generating response: " and the message; any other status yields a text that starts with "Error: " and ends with " - " and the body (the part between is pinned down by `StatusReadableFromDiagnostic`) |
| Inference.StatusReadableFromDiagnostic | main.py:52 | between "Error: " and " - " the non-200 diagnostic holds exactly `str(status)` (digits, no leading zero), which reads back as the status |
| Inference.CannotConnectText | main.py:88 | the connection message contains no `<` and is unchanged by `strip()` |
| Inference.InferSpec | main.py:86-106 | with the server down the reply is the fixed connection message; in every case the reply carries no surrounding whitespace |
| Inference.InferAnswered | main.py:105-106 | a 200 reply with a `response` field yields that field, trimmed |
| Documents.PlainTextIsNotTabular | main.py:77-80 | "text/plain" mentions neither "excel" nor "csv", so it is not taken for a table |
| Documents.ClassifySpec | main.py:71-83 | each branch of `process_file` is selected by exactly the media types described, the table branch reading CSV exactly when the type mentions "csv" |
| Documents.ProcessFileSpec | main.py:70-84 | plain text passes through, an unknown type yields "Unsupported file type!", and the result is a failure exactly when the selected parser raises |
| Documents.Head | main.py:61 | `s[:n]` has length `min(|s|, n)` and is a prefix of `s` |
| Documents.Preview | main.py:56-68 | a PDF shows the fixed preview; plain text shows its first 1000 characters followed by "..."; a table shows its head as HTML or "Error generating preview: " and the message; anything else shows the no-preview text |
| Documents.PlainPreviewBeginsContext | main.py:61 | a plain-text preview has at most 1003 characters, and without its "..." it begins the text `process_file` returns |
| Session.ServiceDownStoresCannotConnect | main.py:120-126 | with the server down, the stored reply is the connection message whatever the toggle says |
| Session.StoredReplyOfAnswer | main.py:120-126 | a 200 answer without `<think>` (or any answer with the toggle on) is stored trimmed and otherwise unchanged |
| Session.ChatSession.constructor | main.py:143-152 | a new session has no turns, an empty input and the toggle on, and satisfies the invariant |
| Session.ChatSession.HandleSend | main.py:112-133 | blank input changes nothing; a parser exception escapes and changes nothing; otherwise exactly one turn (the untrimmed input, the stored reply, the time) is appended and the input is cleared |
| Session.ChatSession.ClearHistory | main.py:399-400 | the turns become empty, whatever they were |
| Session.ChatSession.DisplayedReplies | main.py:312-319 | each displayed reply is the stored reply with the reasoning hidden again under the current toggle |
| Session.ChatSession.HistoryItems | main.py:393-396 | the sidebar lists the user text of every turn, in order, since no stored turn is blank |

## Left out

- The Streamlit page itself is not modelled: layout, CSS, avatar and logo images (base64 loading), the welcome message, the spinner shown while thinking, `st.rerun`, `st.success`, `st.write`, the message widget keys, and `st.error` banners.
- The HTTP calls are parameters. This covers `initialize_model`'s GET, its caching across reruns and its `st.error`, and the POST in `generate_response`. The request fields (model name, `stream`, temperature, max tokens) and the sliders that set them are not modelled.
- The PDF, Word and pandas readers are parameters. Their text extraction and rendering are not modelled.
- Documents.ProcessFile: the upload is a stream with a read position, shared by every reader of the same upload object; the model gives each reader the whole content. It does not capture that `pd.read_csv` in `get_file_preview` (line 63, run on every page run at line 416) may leave the stream at its end, so the later `pd.read_csv` in `process_file` (line 78) reads from there.
- Uploaded content is taken as already decoded text. The UTF-8 decode in `process_file` and `get_file_preview` and its possible exception are not modelled.
- Inference.InferSpec: the outer `except` of `deepseek_inference` (lines 107-110) is not modelled. It is reached only if `generate_response` returns a non-string `response` field, and the model types that field as a string.
- PyStr.SplitJoin: stated only for one-character separators, which is all the joins in `main.py` use. For longer separators the round trip can fail when a piece ends with a prefix of the separator.
- Session.ChatSession.HandleSend: the time of a turn is the `now` parameter rather than a clock read.
- Concurrency is not modelled. Streamlit runs the callback on one thread per session.
