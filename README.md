# TikZ diagram generator: a Dafny model of its core

`tikz_gui.py` is a desktop application. The user describes a diagram in a
text box. A worker thread asks a chat-completion service for TikZ code,
cleans the reply and puts it on a result queue. The interactive thread polls
that queue every 100 ms and shows the code in a chat log or a code editor.
It also has the code compiled with `pdflatex` and shows the first page of
the resulting PDF on a canvas.

This project models the parts of that program that hold logic:

- `clean.dfy` (`CleanTikz`): `clean_tikz_code`.
  - The regular-expression deletion of Markdown fences is a left-to-right scan.
  - Then comes `strip()`.
  - Then the two `tikzpicture` markers are added when absent.
- `app.dfy` (`TikzGui`): the `TikZGUI` class as a Dafny class.
  - The result queue and the dispatcher `check_results` / `update_ui_with_result`.
  - The chat/code toggle and the placeholder handling of the input box.
  - The request gate of `generate_diagram` and the instruction sent with every request.
  - The delivery of worker and render results.
- `widgets.dfy` (`Widgets`): three widgets.
  - The dot animation of `LoadingIndicator`.
  - The edit debounce of `CodeView`.
  - The size arithmetic of `MessageBubble`.
- `render.dfy` (`RenderTikz`): `render_tikz` without its I/O.
  - The LaTeX document template.
  - The choice between the three failures and the first page.
- `pystr.dfy` (`PyStr`): the Python string built-ins the program relies on.
  - `in`, `strip()` with `str.isspace()`'s character set, and `count`.
  - `f"{n}"` for integers and `"." * n`.
- `optional.dfy` (`Optional`): an `Option` type.

Threads are modelled sequentially. A worker's completion, a render's
completion and each Tk timer callback is a method that the environment calls
on the interactive thread's state. Every cleaned code that reaches the queue
or becomes `current_code` is a fragment with both markers and no triple
backtick. This is part of the class invariant `TikzGui.TikZGui.Consistent`.

What the program does not do, so the model does not do it either:

- `clean_tikz_code` does not fail, and it does not cut the text down to what lies between the markers.
- It does not extract or return any prose around the code.
- It does not report an empty reply: blank input yields the two markers on their own lines.
- It does not use a two-stage pipeline: there is one completion call per request.
- It does not tag requests with identifiers: results are shown in the order they are drained.
- It does not classify render failures: a failure carries only the exception's text, and as written that text never reaches the chat (see Findings).
- It does not enforce timeouts.

## Model

| member | source | states |
|---|---|---|
| PyStr.Strip | tikz_gui.py:476 | `strip()` leaves no whitespace at either end and yields "" exactly when the text is all whitespace |
| PyStr.StripSlice | tikz_gui.py:379 | `strip()` keeps a slice of its input and drops only whitespace on either side |
| PyStr.StripPadded | tikz_gui.py:379 | `strip()` recovers a stripped, non-empty text from any whitespace padding around it |
| PyStr.StripNotContains | tikz_gui.py:475-476 | stripping a text cannot create an occurrence of a pattern |
| PyStr.IntToStringRoundTrip | tikz_gui.py:516 | the decimal text of the exit code is a sign and digits, and parses back to the same code |
| PyStr.Contains | tikz_gui.py:479-482 | `p in t` holds when some window of `t` equals `p`, so a contained pattern is never longer than the text |
| PyStr.CountChar | tikz_gui.py:38 | `message.count(c)` counts the occurrences of `c` and is at most the length of the message |
| PyStr.CountCharConcat | tikz_gui.py:38 | the count of a character in a concatenation is the sum of the counts in the parts |
| PyStr.Repeat | tikz_gui.py:201 | `c * n` has length `n` and every character is `c` |
| PyStr.IntToString | tikz_gui.py:516 | the decimal text of an integer is non-empty, starts with '-' exactly when the integer is negative, and has no leading zero |
| CleanTikz.FenceMatchLength | tikz_gui.py:475 | a fence match starts exactly where three backticks do; the matched text is the backticks, then `tikz` whenever it follows, then one newline whenever it follows, so it is one of four texts |
| CleanTikz.StripFences | tikz_gui.py:475 | the fence deletion never lengthens the text |
| CleanTikz.StripFencesLeavesNoFence | tikz_gui.py:475 | no triple backtick is left behind or created by leftmost non-overlapping deletion |
| CleanTikz.StripFencesIdentity | tikz_gui.py:475 | text without a triple backtick passes through the deletion unchanged |
| CleanTikz.StripFencesPlainPrefix | tikz_gui.py:475 | a prefix without backticks is copied and the scan resumes after it |
| CleanTikz.MarkersLackBackticks | tikz_gui.py:479-483 | the added marker lines contain no triple backtick |
| CleanTikz.PrependBeginMarker | tikz_gui.py:479-480 | prepending the begin marker's line gives a text with the marker in which the original text follows intact, and creates no fence |
| CleanTikz.AppendEndMarker | tikz_gui.py:482-483 | appending the end marker's line adds the end marker, keeps the begin marker and the text where they were, and creates no fence |
| CleanTikz.EnsureEnvironment | tikz_gui.py:478-483 | afterwards both markers are present; the text is kept intact at the start, or right after the added begin line when that marker was missing; no fence is created; a text with both markers is returned unchanged |
| CleanTikz.EnsureEnvironmentRepair | tikz_gui.py:478-483 | the repaired text is `BeginMarker + "\n"` (only when that marker is missing), then the text unchanged, then `"\n" + EndMarker` (only when what precedes holds no end marker), and nothing else |
| CleanTikz.CleanTikzCode | tikz_gui.py:472-488 | every result of `clean_tikz_code` contains both markers and no triple backtick |
| CleanTikz.CleanTikzCodeKeepsCompleteText | tikz_gui.py:475-483 | de-fenced, stripped text that already has both markers is returned as it is |
| CleanTikz.EnsureEnvironmentTrimmed | tikz_gui.py:476-483 | the repaired text starts and ends with a non-space, so stripping again changes nothing |
| CleanTikz.CleanTikzCodeIdempotent | tikz_gui.py:472-488 | cleaning twice gives the same text as cleaning once |
| CleanTikz.CleanTikzCodeBlank | tikz_gui.py:476-483 | empty or all-whitespace input does not fail and yields the two markers separated by an empty line |
| CleanTikz.EnsureEnvironmentEmpty | tikz_gui.py:479-483 | the empty text is repaired to the two markers separated by an empty line |
| CleanTikz.CleanTikzCodeUnwrapsFencedBlock | tikz_gui.py:475-476 | a reply wrapped in a ```` ```tikz ```` fence is cleaned exactly as the backtick-free code inside it |
| RenderTikz.LatexDocument | tikz_gui.py:502-506 | the document is the fixed preamble, then the code unaltered, then the fixed closing |
| RenderTikz.LatexDocumentRoundTrip | tikz_gui.py:502-506 | the document is the fixed preamble, the code unaltered and the fixed closing, and the code can be cut back out |
| RenderTikz.PathJoin | tikz_gui.py:522 | the joined path starts with the directory and ends with the file name |
| RenderTikz.RenderOutcome | tikz_gui.py:515-534 | a page is shown exactly when pdflatex exits with 0, the PDF exists and has a page, and it is the first page |
| RenderTikz.CompileFailureMessage | tikz_gui.py:516-518 | the message starts with "pdflatex failed with code N" and a newline, and ends with pdflatex's standard error |
| RenderTikz.CompileFailureReported | tikz_gui.py:515-519 | a non-zero exit gives a failure whose message starts "pdflatex failed with code N\n" and contains stdout and stderr |
| RenderTikz.CompileFailureStopsEarly | tikz_gui.py:515-527 | after a compile failure neither the PDF check nor the conversion affects the outcome |
| RenderTikz.CompileFailureNamesCode | tikz_gui.py:516 | distinct exit codes give distinct failure messages |
| RenderTikz.ShowError | tikz_gui.py:538-540 | the callback posts "Error rendering diagram: " followed by the message exactly when the exception name is still bound, and raises otherwise |
| RenderTikz.ShowErrorAsWritten | tikz_gui.py:536-541 | as written, the callback finds `e` unbound and raises |
| RenderTikz.ShowErrorIntended | tikz_gui.py:536-541 | with the message captured, the callback posts exactly "Error rendering diagram: " followed by the message |
| RenderTikz.RenderFailureNeverShown | tikz_gui.py:536-541 | as written no render failure reaches the chat, whatever its message; the intended callback would post every message, and distinct messages give distinct posts |
| Widgets.BubbleLines | tikz_gui.py:38 | a bubble has at least one line, and exactly one when the message is shorter than 60 characters and has no newline |
| Widgets.BubbleHeight | tikz_gui.py:38-39 | the height is 20 per line clamped to the range 25 to 300: 300 when 20 per line reaches 300, 25 when it is at most 25, and 20 per line in between |
| Widgets.BubbleWidth | tikz_gui.py:45 | the width is 8 per character capped at 400: never above either, and equal to one of them |
| Widgets.BubbleGrowsWithMessage | tikz_gui.py:37-45 | a longer message never gets a smaller bubble |
| Widgets.BubbleSingleLine | tikz_gui.py:38-39 | exactly the messages shorter than 60 characters without a newline get the minimum height |
| Widgets.CountCharZero | tikz_gui.py:38 | the newline count is zero exactly when the message has no newline |
| Widgets.NextDots | tikz_gui.py:200 | the dot count stays below four |
| Widgets.DotsCycle | tikz_gui.py:197-202 | the dot count always changes and four steps bring it back |
| Widgets.LoadingIndicator.constructor | tikz_gui.py:175-186 | the indicator starts with no dots, not running, no scheduled step |
| Widgets.LoadingIndicator.UpdateDots | tikz_gui.py:197-202 | when running, the count advances modulo 4, the label shows that many dots and one more step is scheduled; when stopped, nothing changes |
| Widgets.LoadingIndicator.Start | tikz_gui.py:188-191 | starting sets the flag, advances the dots at once, schedules a step and shows the label |
| Widgets.LoadingIndicator.Stop | tikz_gui.py:193-195 | stopping clears the flag and hides the label without cancelling the scheduled step |
| Widgets.LoadingIndicator.Tick | tikz_gui.py:202 | a scheduled step advances a running indicator and keeps the chain alive; on a stopped one it only ends the chain |
| Widgets.CodeView.constructor | tikz_gui.py:91-123 | the editor starts empty with no timer |
| Widgets.CodeView.SetParentGui | tikz_gui.py:171-172 | the parent link is set and nothing else changes |
| Widgets.CodeView.SetCode | tikz_gui.py:125-129 | the editor's text becomes the code and the timers are untouched |
| Widgets.CodeView.OnEdit | tikz_gui.py:152-158 | an edit cancels the pending preview and schedules exactly one fresh one |
| Widgets.CodeView.FirePreview | tikz_gui.py:163-169 | the preview asks for a render of the editor's text exactly when a parent is set, and leaves nothing pending |
| Widgets.AtMostOnePendingPreview | tikz_gui.py:152-158 | at most one preview is ever pending |
| TikzGui.SystemPromptAsWrittenLosesBeginMarker | tikz_gui.py:393-406 | as written, the instruction has a backspace where the begin marker should start, so the marker is not where the example shows it |
| TikzGui.SystemPromptAsWrittenShowsEndMarker | tikz_gui.py:393-406 | as written, the instruction still contains the end marker |
| TikzGui.SystemPromptShowsBothMarkers | tikz_gui.py:393-406 | the corrected instruction contains both markers |
| TikzGui.GenerationMessages | tikz_gui.py:392-408 | every request is two turns: the instruction as written, which carries the end marker and a backspace where the begin marker should start, then the user's text as the only user turn |
| TikzGui.GenerationMessagesIntended | tikz_gui.py:392-408 | as intended, the same two turns with an instruction that contains both markers |
| TikzGui.GenerationMessagesLoseBeginMarker | tikz_gui.py:392-408 | the request sent and the intended one have the same user turn and differ only where the begin marker's two characters `\b` became one backspace |
| TikzGui.SubmittedInput | tikz_gui.py:379-381 | the text that goes out is the stripped input; it is non-empty, is not the placeholder and has no whitespace at either end |
| TikzGui.SubmittedInputIsTrimmedText | tikz_gui.py:379-381 | the text that goes out is a slice of the input with only whitespace before and after it |
| TikzGui.SubmittedInputGate | tikz_gui.py:379-381 | no request goes out exactly when the box is all whitespace or the placeholder padded with whitespace |
| TikzGui.PlaceholderNeverSubmitted | tikz_gui.py:379-381 | the placeholder, with any whitespace around it, never starts a request |
| TikzGui.DrainChat | tikz_gui.py:600-613 | a drain adds at most one chat message per item |
| TikzGui.CodesOf | tikz_gui.py:600-613 | a drain requests at most one render per item |
| TikzGui.ErrorsOf | tikz_gui.py:604-606 | a drain reports at most one error per item |
| TikzGui.LastCode | tikz_gui.py:582-586 | after a drain `current_code` is unchanged or the code of one of the drained items |
| TikzGui.DrainChatFromAssistant | tikz_gui.py:604-608 | every chat message a drain adds is an assistant message |
| TikzGui.CodesAreQueued | tikz_gui.py:600-613 | every render request and every error message of a drain comes from an item of the queue |
| TikzGui.DrainHandlesEachItemOnce | tikz_gui.py:600-613 | every drained item is handled once, as code or as error; in the chat view each adds one message, in the code view only errors do |
| TikzGui.DrainErrorMessages | tikz_gui.py:604-606 | in the code view the chat gets exactly one "Error: " + message per error item, in queue order |
| TikzGui.LastCodeSplits | tikz_gui.py:582-586 | `current_code` after two drains in a row is that after one drain of both batches |
| TikzGui.DrainSplits | tikz_gui.py:600-613 | draining two batches one after the other has the same effect as draining them at once, so only queue order matters |
| TikzGui.LastCodeFollowsCodeItems | tikz_gui.py:582-586 | error items leave `current_code` alone, and the last code item in the queue, wherever it stands, becomes it |
| TikzGui.LastCodeItemWins | tikz_gui.py:582-586 | a code item followed only by error items sets `current_code` to its code |
| TikzGui.TikZGui.constructor | tikz_gui.py:205-239 | the GUI starts in the chat view with the welcome message, the dimmed placeholder, an empty queue and one poll scheduled after 100 ms |
| TikzGui.TikZGui.ToggleView | tikz_gui.py:341-353 | the view flips, the button names the other view, and entering the code view loads `current_code` into the editor if there is one |
| TikzGui.TikZGui.OnInputFocusIn | tikz_gui.py:355-358 | focus clears the box and undims it only when it holds exactly the placeholder |
| TikzGui.TikZGui.OnInputFocusOut | tikz_gui.py:360-364 | leaving an all-whitespace box restores the dimmed placeholder; any other text stays |
| TikzGui.TikZGui.KeyTyped | tikz_gui.py:366-370 | a typed character replaces the placeholder, or is appended to the user's text |
| TikzGui.TikZGui.OnEnterPressed | tikz_gui.py:372-375 | Enter without modifiers has exactly the effect of `generate_diagram`; with modifiers nothing in the model changes |
| TikzGui.TikZGui.GenerateDiagram | tikz_gui.py:377-417 | a gated input changes nothing; otherwise the box is reset, the stripped text becomes a user message, the indicator starts, the canvas is cleared and one request is started |
| TikzGui.TikZGui.Submit | tikz_gui.py:383-417 | the effects of a request that passed the gate |
| TikzGui.TikZGui.StartWorker | tikz_gui.py:417 | one more worker is in flight, for this text |
| TikzGui.TikZGui.Enqueue | tikz_gui.py:461 | a finished worker appends its item at the back of the queue |
| TikzGui.TikZGui.GenerationSucceeded | tikz_gui.py:457-461 | a finished worker queues the cleaned reply |
| TikzGui.TikZGui.GenerationFailed | tikz_gui.py:467-470 | a failed worker queues the exception's text |
| TikzGui.TikZGui.RenderTikzAsync | tikz_gui.py:543-545 | one render request is logged for this code |
| TikzGui.TikZGui.UpdateUiWithResult | tikz_gui.py:582-598 | the code becomes `current_code`; it goes to the editor in the code view or to the chat otherwise; one render is requested; the indicator stops |
| TikzGui.TikZGui.HandleItem | tikz_gui.py:604-608 | an error adds "Error: " + message to the chat and stops the indicator; code goes through `update_ui_with_result` |
| TikzGui.TikZGui.PopItem | tikz_gui.py:603-609 | the oldest item leaves the queue and is handled |
| TikzGui.TikZGui.DrainQueue | tikz_gui.py:601-611 | the queue ends empty; the chat, render log and `current_code` are those of draining every item in order; the indicator is stopped if anything was drained |
| TikzGui.TikZGui.CheckResults | tikz_gui.py:600-613 | the drain, followed by exactly one more poll scheduled after 100 ms, whether or not anything was queued |
| TikzGui.TikZGui.PollTimerFires | tikz_gui.py:600-613 | a poll drains the queue with the same effect on chat, renders, `current_code`, editor and indicator as `check_results`, and schedules its successor after 100 ms, so exactly one poll stays pending |
| TikzGui.TikZGui.UpdateCanvasWithImage | tikz_gui.py:547-555 | the canvas is cleared and shows the page only when it is larger than 1x1; nothing else changes |
| TikzGui.TikZGui.RenderFinished | tikz_gui.py:532-541 | a page goes to the canvas as `update_canvas_with_image` draws it; a failure, as written, changes nothing in the application |
| TikzGui.TikZGui.RenderFinishedIntended | tikz_gui.py:532-541 | as intended, a failure adds "Error rendering diagram: " + message to the chat and changes nothing else |
| TikzGui.TikZGui.EditorEdited | tikz_gui.py:152-158 | an edit leaves exactly one preview pending |
| TikzGui.TikZGui.EditorTimerFires | tikz_gui.py:163-169 | the pending preview requests a render of the editor's text; the text and the timer id stay, and nothing stays pending or changes otherwise |

## Left out

- Widget construction, layout, colours, fonts and scrolling (tikz_gui.py:24-116, 241-339). These are Tk presentation. `MessageBubble` keeps only its size arithmetic, and `ChatFrame.add_message` is an append to the chat log.
- `CodeView.highlight_syntax` (tikz_gui.py:131-150). It depends on Python regular-expression word boundaries and Tk text indices. The editor's text is modelled, its colouring is not.
- The streaming completion call (tikz_gui.py:419-470). It is network I/O, and it calls `root.update()` from the worker thread. A worker's outcome is the input of `GenerationSucceeded`, which takes the accumulated reply text, or of `GenerationFailed`, which takes the exception's text.
- Thread creation (tikz_gui.py:417, 545) and the thread safety of `queue.Queue`. Worker and render completions are methods called one at a time. Interleavings are not modelled.
- `result_queue.task_done()` (tikz_gui.py:609). Nothing joins the queue, so it has no observable effect.
- The `pdflatex` run, the temporary directory, the file write and the PDF-to-image conversion (tikz_gui.py:496-527). These are external processes and I/O. `RenderOutcome` takes their results as inputs: the exit code, stdout and stderr, whether the PDF exists, and the pages.
- Exceptions raised by that I/O itself, such as a missing `pdflatex` or a failed write (tikz_gui.py:496-534). The same `except` clause catches them. `RenderOutcome` covers only the three failures the code raises. Any other failure reaches the model as a `RenderFailed` given to `RenderFinished`.
- The order of the render thread and Tk's callback. `ShowErrorAsWritten` assumes the usual order: the render thread leaves the `except` clause before Tk runs `show_error`.
- Image scaling and centring in `update_canvas_with_image` (tikz_gui.py:557-580). This is floating-point arithmetic. The model records only which page is drawn.
- Logging and the client configuration (tikz_gui.py:14-22, 215-225).
- Tk's own key handling.
  - Enter with a modifier inserts a newline. This is not modelled.
  - `KeyTyped` appends a printable character at the end of the text. The cursor position and non-printing keys are not modelled.
- Tk's `after` ids are strings. The model uses fresh natural numbers.
- TikzGui.TikZGui.RenderFinished: the canvas holds the page's size only. The pixels of the page are not modelled.
- `gui_app.py` is a separate widget demo and is not part of this model.

## Findings

| source | as written | input that shows it | evidently intended | confidence | as-written member | corrected member |
|---|---|---|---|---|---|---|
| tikz_gui.py:395 | The system instruction is a non-raw triple-quoted string. There, `\b` is the backspace escape, so the example line reaches the service as U+0008 followed by `egin{tikzpicture}`. The example therefore lacks the begin marker, while `\end{tikzpicture}` survives because `\e` is not an escape. | every request: the instruction turn of `GenerationMessages(u)` holds U+0008 at index `\|PromptHead\|` | the example shows `\begin{tikzpicture}`, as `clean_tikz_code` expects (a raw string or `\\b`) | not executed | TikzGui.SystemPromptAsWrittenLosesBeginMarker | TikzGui.SystemPromptShowsBothMarkers |
| tikz_gui.py:536-541 | `show_error` reads the exception name `e` only when Tk runs it. Python unbinds a name bound by `except ... as e` when the clause ends, so the callback raises `NameError` inside Tk's callback handler and posts nothing. | any render failure, e.g. pdflatex exiting with code 1: `RenderFinished` leaves the chat unchanged | the chat shows "Error rendering diagram: " + the message (capture it, e.g. `error_message` computed before `after`) | not executed | RenderTikz.RenderFailureNeverShown | TikzGui.TikZGui.RenderFinishedIntended |
