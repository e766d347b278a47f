/**
 * The `TikZGUI` class of tikz_gui.py (lines 204-613) without its widgets'
 * presentation: the input box with its placeholder, the chat log, the
 * chat/code toggle, the request gate of `generate_diagram`, the result
 * queue filled by the generation worker, the dispatcher `check_results`
 * that drains it every 100 ms, and the delivery of render results.
 *
 * Threads are not modelled: a worker's completion, a render's completion
 * and Tk's timer callbacks are methods the environment calls one at a time
 * on the interactive thread's state.
 */
module TikzGui {
  import opened PyStr
  import opened Optional
  import opened CleanTikz
  import opened RenderTikz
  import opened Widgets

  const Placeholder: string := "Describe the diagram you want to create..."
  const Welcome: string := "Welcome! Describe the diagram you want to create."
  const ShowCodeLabel: string := "Show Code"
  const ShowChatLabel: string := "Show Chat"
  const PollDelayMs: nat := 100

  // ---------------------------------------------------------------------
  // The system instruction sent with every request (lines 393-406)
  // ---------------------------------------------------------------------

  const PromptHead: string := "Generate ONLY valid TikZ code. Your response must follow this EXACT format:\n\n"
  const PromptBody: string := "\n% Your TikZ commands here\n"
  const PromptRules: string :=
    "\n\nRules:\n1. Keep it simple - just basic shapes and lines\n2. Use standard colors (red, blue, green, etc.)\n3. Center components at (0,0)\n4. No scaling or transformations\n5. No shadows or fancy effects\n\nDO NOT add ANY text before or after the code."

  /** Everything after the example's first line. */
  const PromptTail: string := PromptBody + EndMarker + PromptRules

  /**
   * The instruction as the source spells it: in a non-raw Python string
   * `\b` is the backspace character, so the example's first line reaches
   * the model as U+0008 followed by `egin{tikzpicture}`; `\e` is no escape,
   * so the end marker survives.
   */
  const SystemPromptAsWritten: string := PromptHead + "\U{8}egin{tikzpicture}" + PromptTail

  /** The instruction as evidently intended: the example shows both markers. */
  const SystemPrompt: string := PromptHead + BeginMarker + PromptTail

  /** Replacing the first two characters of the middle part `m` by `c`. */
  lemma SpliceTwoForOne(h: string, m: string, t: string, c: char)
    requires |m| >= 2
    ensures var s := h + m + t;
      var w := h + ([c] + m[2..]) + t;
      && w == s[..|h|] + [c] + s[|h| + 2..]
      && w[|h|] == c
  {
    var s := h + m + t;
    assert s[..|h|] == h;
    assert s[|h| + 2..] == m[2..] + t;
  }

  /**
   * As written, the instruction carries a backspace where the example's
   * begin marker should start: it is the intended text with the two
   * characters `\b` collapsed into U+0008, so the marker is not where the
   * example shows it.
   */
  lemma SystemPromptAsWrittenLosesBeginMarker()
    ensures var i := |PromptHead|;
      && SystemPromptAsWritten[i] == '\U{8}'
      && !OccursAt(SystemPromptAsWritten, BeginMarker, i)
      && OccursAt(SystemPrompt, BeginMarker, i)
      && SystemPromptAsWritten == SystemPrompt[..i] + "\U{8}" + SystemPrompt[i + 2..]
  {
    var i := |PromptHead|;
    assert "\U{8}egin{tikzpicture}" == ['\U{8}'] + BeginMarker[2..];
    SpliceTwoForOne(PromptHead, BeginMarker, PromptTail, '\U{8}');
    OccursBetween(PromptHead, BeginMarker, PromptTail);
    MismatchNotOccurs(SystemPromptAsWritten, BeginMarker, i, 0);
  }

  /** `p` occurs in `a + (b + p + c)` right after `a + b`. */
  lemma OccursAfter(a: string, b: string, p: string, c: string)
    ensures OccursAt(a + (b + p + c), p, |a| + |b|)
  {
    assert a + (b + p + c) == (a + b) + p + c;
    OccursBetween(a + b, p, c);
  }

  /** As intended, the instruction shows the model both markers, which is the shape `clean_tikz_code` enforces. */
  lemma SystemPromptShowsBothMarkers()
    ensures Contains(SystemPrompt, BeginMarker) && Contains(SystemPrompt, EndMarker)
    ensures SystemPrompt != SystemPromptAsWritten
  {
    OccursBetween(PromptHead, BeginMarker, PromptTail);
    OccursAfter(PromptHead + BeginMarker, PromptBody, EndMarker, PromptRules);
    SystemPromptAsWrittenLosesBeginMarker();
  }

  // ---------------------------------------------------------------------
  // Values exchanged between the parts
  // ---------------------------------------------------------------------

  /** An entry of `result_queue`: cleaned code (line 461) or an exception, kept as `str(e)` (line 470). */
  datatype Item = Code(code: string) | Error(message: string)

  /** A chat bubble: its text and whether the user wrote it. */
  datatype ChatMessage = ChatMessage(text: string, isUser: bool)

  /** What a callback run by Tk adds to the chat: its text as an assistant message, or nothing when it raised. */
  function Posts(o: CallbackOutcome): (added: seq<ChatMessage>)
    ensures o.Raised? <==> added == []
    ensures o.Posted? ==> added == [ChatMessage(o.chatText, false)]
  {
    match o
    case Posted(text) => [ChatMessage(text, false)]
    case Raised => []
  }

  datatype Role = System | User
  datatype Turn = Turn(role: Role, content: string)

  /** The end marker survives in the instruction as written: `\e` is no escape. */
  lemma SystemPromptAsWrittenShowsEndMarker()
    ensures Contains(SystemPromptAsWritten, EndMarker)
  {
    OccursAfter(PromptHead + "\U{8}egin{tikzpicture}", PromptBody, EndMarker, PromptRules);
  }

  /**
   * The `messages` list handed to the worker (lines 392-408): the
   * instruction as the source spells it, then the user's text as the only
   * user turn. The instruction's example carries the end marker but, at
   * the place of the begin marker, a backspace.
   */
  function GenerationMessages(userInput: string): (m: seq<Turn>)
    ensures |m| == 2 && m[0].role == System && m[1] == Turn(User, userInput)
    ensures Contains(m[0].content, EndMarker)
    ensures |PromptHead| < |m[0].content| && m[0].content[|PromptHead|] == '\U{8}'
    ensures !OccursAt(m[0].content, BeginMarker, |PromptHead|)
  {
    SystemPromptAsWrittenLosesBeginMarker();
    SystemPromptAsWrittenShowsEndMarker();
    [Turn(System, SystemPromptAsWritten), Turn(User, userInput)]
  }

  /** The request as evidently intended: the instruction's example shows both markers. */
  function GenerationMessagesIntended(userInput: string): (m: seq<Turn>)
    ensures |m| == 2 && m[0].role == System && m[1] == Turn(User, userInput)
    ensures Contains(m[0].content, BeginMarker) && Contains(m[0].content, EndMarker)
  {
    SystemPromptShowsBothMarkers();
    [Turn(System, SystemPrompt), Turn(User, userInput)]
  }

  /**
   * Every request the program sends differs from the intended one in the
   * instruction only, where the begin marker's `\b` is one backspace.
   */
  lemma GenerationMessagesLoseBeginMarker(userInput: string)
    ensures var sent := GenerationMessages(userInput);
      var intended := GenerationMessagesIntended(userInput);
      var i := |PromptHead|;
      && sent[1] == intended[1]
      && OccursAt(intended[0].content, BeginMarker, i) && !OccursAt(sent[0].content, BeginMarker, i)
      && sent[0].content == intended[0].content[..i] + "\U{8}" + intended[0].content[i + 2..]
  {
    SystemPromptAsWrittenLosesBeginMarker();
  }

  /**
   * The gate of `generate_diagram` (lines 379-381): the stripped input, or
   * `None` when it is empty or is the placeholder.
   */
  function SubmittedInput(text: string): (r: Option<string>)
    ensures r.Some? ==> var u := r.value;
      u == Strip(text) && u != "" && u != Placeholder && !IsSpace(u[0]) && !IsSpace(u[|u| - 1])
  {
    var u := Strip(text);
    if u == "" || u == Placeholder then None else Some(u)
  }

  /**
   * What goes out is the box's own text with only the whitespace around it
   * cut off: a slice of the input, with nothing but whitespace before and
   * after it.
   */
  lemma SubmittedInputIsTrimmedText(text: string)
    ensures SubmittedInput(text).Some? ==>
      exists a, b | 0 <= a <= b <= |text| ::
        && SubmittedInput(text).value == text[a..b]
        && AllSpace(text[..a]) && AllSpace(text[b..])
  {
    var a, b := StripSlice(text);
  }

  /** `text` is the placeholder with nothing but whitespace around it. */
  predicate PaddedPlaceholder(text: string)
  {
    exists a, b | 0 <= a <= b <= |text| :: AllSpace(text[..a]) && text[a..b] == Placeholder && AllSpace(text[b..])
  }

  /**
   * No request goes out exactly when the box holds only whitespace or the
   * placeholder padded with whitespace.
   */
  lemma SubmittedInputGate(text: string)
    ensures SubmittedInput(text).None? <==> AllSpace(text) || PaddedPlaceholder(text)
  {
    if PaddedPlaceholder(text) {
      PaddedPlaceholderGated(text);
    }
    if Strip(text) == Placeholder {
      StrippedPlaceholderPadded(text);
    }
  }

  lemma PaddedPlaceholderGated(text: string)
    requires PaddedPlaceholder(text)
    ensures SubmittedInput(text) == None
  {
    var a, b :| 0 <= a <= b <= |text| && AllSpace(text[..a]) && text[a..b] == Placeholder && AllSpace(text[b..]);
    SplitInThree(text, a, b);
    PlaceholderNeverSubmitted(text[..a], text[b..]);
  }

  lemma SplitInThree(t: string, a: nat, b: nat)
    requires a <= b <= |t|
    ensures t == t[..a] + t[a..b] + t[b..]
  {
  }

  lemma StrippedPlaceholderPadded(text: string)
    requires Strip(text) == Placeholder
    ensures PaddedPlaceholder(text)
  {
    var a, b := StripSlice(text);
    assert AllSpace(text[..a]) && text[a..b] == Placeholder && AllSpace(text[b..]);
  }

  /** The placeholder itself, and the placeholder with whitespace around it, never start a request. */
  lemma PlaceholderNeverSubmitted(before: string, after: string)
    requires AllSpace(before) && AllSpace(after)
    ensures SubmittedInput(before + Placeholder + after) == None
  {
    assert Placeholder[0] == 'D' && Placeholder[|Placeholder| - 1] == '.';
    StripPadded(before, Placeholder, after);
  }

  // ---------------------------------------------------------------------
  // What one drain of the queue does (lines 582-613), item by item
  // ---------------------------------------------------------------------

  /** The chat messages one queue item produces. */
  function ItemChat(item: Item, showChat: bool): seq<ChatMessage>
  {
    match item
    case Error(m) => [ChatMessage("Error: " + m, false)]
    case Code(c) => if showChat then [ChatMessage(c, false)] else []
  }

  /** The chat messages a drain of `q` adds, in queue order. */
  function DrainChat(q: seq<Item>, showChat: bool): (added: seq<ChatMessage>)
    ensures |added| <= |q|
  {
    if q == [] then [] else DrainChat(q[..|q| - 1], showChat) + ItemChat(q[|q| - 1], showChat)
  }

  /** The code items of `q`, in queue order: the render requests of a drain. */
  function CodesOf(q: seq<Item>): (codes: seq<string>)
    ensures |codes| <= |q|
  {
    if q == [] then [] else CodesOf(q[..|q| - 1]) + (if q[|q| - 1].Code? then [q[|q| - 1].code] else [])
  }

  /** The messages of the error items of `q`, in queue order. */
  function ErrorsOf(q: seq<Item>): (errors: seq<string>)
    ensures |errors| <= |q|
  {
    if q == [] then [] else ErrorsOf(q[..|q| - 1]) + (if q[|q| - 1].Error? then [q[|q| - 1].message] else [])
  }

  /** `current_code` after a drain of `q` starting from `current`: unchanged, or the code of one of the items. */
  function LastCode(q: seq<Item>, current: string): (code: string)
    ensures code == current || Code(code) in q
  {
    CodesAreQueued(q);
    var codes := CodesOf(q);
    if codes == [] then current else codes[|codes| - 1]
  }

  /** A drain adds only assistant messages. */
  lemma {:induction false} DrainChatFromAssistant(q: seq<Item>, showChat: bool)
    ensures forall i :: 0 <= i < |DrainChat(q, showChat)| ==> !DrainChat(q, showChat)[i].isUser
  {
    if q != [] {
      DrainChatFromAssistant(q[..|q| - 1], showChat);
    }
  }

  /** Every render request of a drain, and every error message it reports, comes from an item of the queue. */
  lemma {:induction false} CodesAreQueued(q: seq<Item>)
    ensures forall i :: 0 <= i < |CodesOf(q)| ==> Code(CodesOf(q)[i]) in q
    ensures forall i :: 0 <= i < |ErrorsOf(q)| ==> Error(ErrorsOf(q)[i]) in q
  {
    if q != [] {
      var p := q[..|q| - 1];
      CodesAreQueued(p);
      assert forall x :: x in p ==> x in q;
    }
  }

  /** Every item is handled exactly once, either as code or as an error. */
  lemma {:induction false} DrainHandlesEachItemOnce(q: seq<Item>)
    ensures |CodesOf(q)| + |ErrorsOf(q)| == |q|
    ensures |DrainChat(q, true)| == |q|
    ensures |DrainChat(q, false)| == |ErrorsOf(q)|
  {
    if q != [] {
      DrainHandlesEachItemOnce(q[..|q| - 1]);
    }
  }

  /** In the code view the chat gets exactly one "Error: " message per error item, in order. */
  lemma {:induction false} DrainErrorMessages(q: seq<Item>)
    ensures |DrainChat(q, false)| == |ErrorsOf(q)|
    ensures forall i :: 0 <= i < |ErrorsOf(q)| ==>
      DrainChat(q, false)[i] == ChatMessage("Error: " + ErrorsOf(q)[i], false)
  {
    if q != [] {
      DrainErrorMessages(q[..|q| - 1]);
    }
  }

  lemma {:induction false} DrainChatSplits(q1: seq<Item>, q2: seq<Item>, showChat: bool)
    ensures DrainChat(q1 + q2, showChat) == DrainChat(q1, showChat) + DrainChat(q2, showChat)
  {
    if q2 == [] {
      assert q1 + q2 == q1;
    } else {
      var q := q1 + q2;
      var p2 := q2[..|q2| - 1];
      var last := ItemChat(q2[|q2| - 1], showChat);
      assert q[..|q| - 1] == q1 + p2;
      assert q[|q| - 1] == q2[|q2| - 1];
      assert DrainChat(q, showChat) == DrainChat(q1 + p2, showChat) + last;
      assert DrainChat(q2, showChat) == DrainChat(p2, showChat) + last;
      DrainChatSplits(q1, p2, showChat);
      AppendAssoc(DrainChat(q1, showChat), DrainChat(p2, showChat), last);
    }
  }

  lemma AppendAssoc<T>(a: seq<T>, b: seq<T>, c: seq<T>)
    ensures (a + b) + c == a + (b + c)
  {
  }

  lemma {:induction false} CodesOfSplits(q1: seq<Item>, q2: seq<Item>)
    ensures CodesOf(q1 + q2) == CodesOf(q1) + CodesOf(q2)
  {
    if q2 == [] {
      assert q1 + q2 == q1;
    } else {
      var q := q1 + q2;
      var p2 := q2[..|q2| - 1];
      var last := if q2[|q2| - 1].Code? then [q2[|q2| - 1].code] else [];
      assert q[..|q| - 1] == q1 + p2;
      assert q[|q| - 1] == q2[|q2| - 1];
      assert CodesOf(q) == CodesOf(q1 + p2) + last;
      assert CodesOf(q2) == CodesOf(p2) + last;
      CodesOfSplits(q1, p2);
      AppendAssoc(CodesOf(q1), CodesOf(p2), last);
    }
  }

  lemma {:induction false} ErrorsOfSplits(q1: seq<Item>, q2: seq<Item>)
    ensures ErrorsOf(q1 + q2) == ErrorsOf(q1) + ErrorsOf(q2)
  {
    if q2 == [] {
      assert q1 + q2 == q1;
    } else {
      var q := q1 + q2;
      var p2 := q2[..|q2| - 1];
      var last := if q2[|q2| - 1].Error? then [q2[|q2| - 1].message] else [];
      assert q[..|q| - 1] == q1 + p2;
      assert q[|q| - 1] == q2[|q2| - 1];
      assert ErrorsOf(q) == ErrorsOf(q1 + p2) + last;
      assert ErrorsOf(q2) == ErrorsOf(p2) + last;
      ErrorsOfSplits(q1, p2);
      AppendAssoc(ErrorsOf(q1), ErrorsOf(p2), last);
    }
  }

  /** `current_code` after two drains in a row is that after one drain of both queues. */
  lemma LastCodeSplits(q1: seq<Item>, q2: seq<Item>, current: string)
    ensures LastCode(q1 + q2, current) == LastCode(q2, LastCode(q1, current))
  {
    CodesOfSplits(q1, q2);
  }

  /**
   * Draining `q1` and then `q2` has the same effect as draining `q1 + q2` at
   * once: how items are split across polls does not matter, only their order.
   */
  lemma DrainSplits(q1: seq<Item>, q2: seq<Item>, showChat: bool, current: string)
    ensures DrainChat(q1 + q2, showChat) == DrainChat(q1, showChat) + DrainChat(q2, showChat)
    ensures CodesOf(q1 + q2) == CodesOf(q1) + CodesOf(q2)
    ensures ErrorsOf(q1 + q2) == ErrorsOf(q1) + ErrorsOf(q2)
    ensures LastCode(q1 + q2, current) == LastCode(q2, LastCode(q1, current))
  {
    DrainChatSplits(q1, q2, showChat);
    CodesOfSplits(q1, q2);
    ErrorsOfSplits(q1, q2);
    LastCodeSplits(q1, q2, current);
  }

  /** A drain of a single item: its chat messages, and its code if it is code. */
  lemma DrainOne(item: Item, showChat: bool, current: string)
    ensures DrainChat([item], showChat) == ItemChat(item, showChat)
    ensures CodesOf([item]) == (if item.Code? then [item.code] else [])
    ensures LastCode([item], current) == (if item.Code? then item.code else current)
  {
    assert [item][..0] == [];
  }

  /** The drain of `done` followed by that of one more item is the drain of `done + [item]`. */
  lemma DrainStep(done: seq<Item>, item: Item, chat0: seq<ChatMessage>, renders0: seq<string>, showChat: bool, c0: string, v0: string)
    ensures chat0 + DrainChat(done, showChat) + DrainChat([item], showChat) == chat0 + DrainChat(done + [item], showChat)
    ensures renders0 + CodesOf(done) + CodesOf([item]) == renders0 + CodesOf(done + [item])
    ensures LastCode([item], LastCode(done, c0)) == LastCode(done + [item], c0)
    ensures LastCode([item], LastCode(done, v0)) == LastCode(done + [item], v0)
  {
    DrainChatSplits(done, [item], showChat);
    AppendAssoc(chat0, DrainChat(done, showChat), DrainChat([item], showChat));
    CodesOfSplits(done, [item]);
    AppendAssoc(renders0, CodesOf(done), CodesOf([item]));
    LastCodeSplits(done, [item], c0);
    LastCodeSplits(done, [item], v0);
  }

  /** Error items leave `current_code` alone; a code item, wherever it is, sets it, and the last one wins. */
  lemma LastCodeFollowsCodeItems(q: seq<Item>, current: string)
    ensures q != [] && q[|q| - 1].Code? ==> LastCode(q, current) == q[|q| - 1].code
    ensures (forall i :: 0 <= i < |q| ==> q[i].Error?) ==> LastCode(q, current) == current
    ensures forall j :: 0 <= j < |q| && q[j].Code? && (forall k :: j < k < |q| ==> q[k].Error?) ==>
      LastCode(q, current) == q[j].code
  {
    if forall i :: 0 <= i < |q| ==> q[i].Error? {
      NoCodeItems(q);
    }
    forall j | 0 <= j < |q| && q[j].Code? && (forall k :: j < k < |q| ==> q[k].Error?)
      ensures LastCode(q, current) == q[j].code
    {
      LastCodeItemWins(q, current, j);
    }
  }

  /** The last code item of the queue, wherever it stands, becomes `current_code`. */
  lemma LastCodeItemWins(q: seq<Item>, current: string, j: int)
    requires 0 <= j < |q| && q[j].Code?
    requires forall k :: j < k < |q| ==> q[k].Error?
    ensures LastCode(q, current) == q[j].code
  {
    var before, after := q[..j + 1], q[j + 1..];
    assert q == before + after;
    LastCodeSplits(before, after, current);
    assert before[|before| - 1] == q[j];
    forall k | 0 <= k < |after|
      ensures after[k].Error?
    {
      assert after[k] == q[j + 1 + k];
    }
    NoCodeItems(after);
  }

  lemma {:induction false} NoCodeItems(q: seq<Item>)
    requires forall i :: 0 <= i < |q| ==> q[i].Error?
    ensures CodesOf(q) == []
  {
    if q != [] {
      NoCodeItems(q[..|q| - 1]);
    }
  }

  /** The part of the application's state that lives in `TikZGUI` itself. */
  datatype GuiState = GuiState(
    resultQueue: seq<Item>,
    currentCode: string,
    showChat: bool,
    toggleLabel: string,
    chat: seq<ChatMessage>,
    renders: seq<string>,
    requests: seq<string>,
    inFlight: nat,
    inputText: string,
    inputDimmed: bool,
    canvas: Option<Page>,
    pendingPolls: nat,
    pollDelays: seq<nat>)

  /**
   * `TikZGUI`. `renders` logs the `render_tikz_async` calls, `requests`
   * the user texts of the worker threads started (the worker for `u` sends
   * `GenerationMessages(u)`), `inFlight` the workers
   * that have not yet queued their result, `inputDimmed` the placeholder's
   * grey text colour, `pendingPolls` the scheduled `check_results` calls and
   * `pollDelays` the delays they were scheduled with.
   */
  class TikZGui {
    var resultQueue: seq<Item>
    var currentCode: string
    var showChat: bool
    var toggleLabel: string
    var chat: seq<ChatMessage>
    var renders: seq<string>
    var requests: seq<string>
    var inFlight: nat
    var inputText: string
    var inputDimmed: bool
    var canvas: Option<Page>
    var pendingPolls: nat
    var pollDelays: seq<nat>
    const indicator: LoadingIndicator
    const codeView: CodeView

    ghost function State(): GuiState
      reads this
    {
      GuiState(resultQueue, currentCode, showChat, toggleLabel, chat, renders, requests,
        inFlight, inputText, inputDimmed, canvas, pendingPolls, pollDelays)
    }

    /**
     * The widgets are consistent, the toggle's label names the other view,
     * grey text is only ever the placeholder, and every code the dispatcher
     * can see (queued or current) is a cleaned fragment.
     */
    ghost predicate Consistent()
      reads this, indicator, codeView
    {
      && indicator.Valid()
      && codeView.Valid() && codeView.hasParent
      && toggleLabel == (if showChat then ShowCodeLabel else ShowChatLabel)
      && (inputDimmed ==> inputText == Placeholder)
      && (forall item :: item in resultQueue && item.Code? ==> IsFragment(item.code))
      && (currentCode == "" || IsFragment(currentCode))
    }

    /** ... and the polling loop is alive: a `check_results` call is always scheduled. */
    ghost predicate Valid()
      reads this, indicator, codeView
    {
      Consistent() && pendingPolls > 0
    }

    /** `__init__` and `create_gui_elements` (lines 205-339), ending with the first `check_results`. */
    constructor ()
      ensures Valid() && fresh(indicator) && fresh(codeView)
      ensures State() == GuiState([], "", true, ShowCodeLabel, [ChatMessage(Welcome, false)], [], [], 0,
        Placeholder, true, None, 1, [PollDelayMs])
      ensures indicator.dots == 0 && !indicator.isRunning && indicator.visible && indicator.pendingTicks == 0
      ensures codeView.text == "" && codeView.hasParent && codeView.pendingTimers == {}
    {
      indicator := new LoadingIndicator();
      codeView := new CodeView();
      resultQueue := [];
      currentCode := "";
      showChat := true;
      toggleLabel := ShowCodeLabel;
      chat := [ChatMessage(Welcome, false)];
      renders := [];
      requests := [];
      inFlight := 0;
      inputText := Placeholder;
      inputDimmed := true;
      canvas := None;
      pendingPolls := 0;
      pollDelays := [];
      new;
      codeView.SetParentGui();
      CheckResults();
    }

    /** `toggle_view` (lines 341-353). */
    method ToggleView()
      requires Valid()
      modifies this, codeView
      ensures Valid()
      ensures State() == old(State()).(showChat := !old(showChat),
        toggleLabel := if old(showChat) then ShowChatLabel else ShowCodeLabel)
      ensures codeView.text == (if old(showChat) && currentCode != "" then currentCode else old(codeView.text))
      ensures codeView.Schedule() == old(codeView.Schedule())
    {
      showChat := !showChat;
      if showChat {
        toggleLabel := ShowCodeLabel;
      } else {
        toggleLabel := ShowChatLabel;
        if currentCode != "" {
          codeView.SetCode(currentCode);
        }
      }
    }

    /** `on_input_focus_in` (lines 355-358) and `on_key_press` (lines 366-370): clear the placeholder. */
    method OnInputFocusIn()
      requires Valid()
      modifies this
      ensures Valid()
      ensures State() == if old(inputText) == Placeholder
        then old(State()).(inputText := "", inputDimmed := false)
        else old(State())
    {
      if inputText == Placeholder {
        inputText := "";
        inputDimmed := false;
      }
    }

    /** `on_input_focus_out` (lines 360-364): an all-whitespace box gets the placeholder back. */
    method OnInputFocusOut()
      requires Valid()
      modifies this
      ensures Valid()
      ensures State() == if Strip(old(inputText)) == ""
        then old(State()).(inputText := Placeholder, inputDimmed := true)
        else old(State())
    {
      if Strip(inputText) == "" {
        inputText := Placeholder;
        inputDimmed := true;
      }
    }

    /** A character key: `on_key_press` runs, then Tk inserts the character at the end. */
    method KeyTyped(c: char)
      requires Valid()
      modifies this
      ensures Valid()
      ensures State() == old(State()).(
        inputText := (if old(inputText) == Placeholder then "" else old(inputText)) + [c],
        inputDimmed := false)
    {
      OnInputFocusIn();
      inputText := inputText + [c];
      inputDimmed := false;
    }

    /**
     * The part of `generate_diagram` past the gate (lines 383-417): the box
     * is reset to the placeholder, the input becomes a user message, the
     * indicator starts, the canvas is cleared and a worker is started with
     * the two-turn message list.
     */
    method Submit(userInput: string)
      requires Valid()
      modifies this, indicator
      ensures Valid()
      ensures State() == old(State()).(inputText := Placeholder, inputDimmed := true,
        chat := old(chat) + [ChatMessage(userInput, true)], canvas := None,
        requests := old(requests) + [userInput], inFlight := old(inFlight) + 1)
      ensures indicator.isRunning && indicator.visible && indicator.dots == NextDots(old(indicator.dots))
      ensures indicator.pendingTicks == old(indicator.pendingTicks) + 1
    {
      inputText := Placeholder;
      inputDimmed := true;
      chat := chat + [ChatMessage(userInput, true)];
      indicator.Start();
      canvas := None;
      StartWorker(userInput);
    }

    /**
     * `threading.Thread(target=self.generate_diagram_async, ...).start()` (line 417):
     * the worker for `userInput` sends `GenerationMessages(userInput)`.
     */
    method StartWorker(userInput: string)
      modifies this
      ensures State() == old(State()).(requests := old(requests) + [userInput], inFlight := old(inFlight) + 1)
    {
      requests := requests + [userInput];
      inFlight := inFlight + 1;
    }

    /**
     * `generate_diagram` (lines 377-417): nothing happens unless the gate
     * lets the input through.
     */
    method GenerateDiagram()
      requires Valid()
      modifies this, indicator
      ensures Valid()
      ensures SubmittedInput(old(inputText)).None? ==>
        State() == old(State()) && unchanged(indicator)
      ensures SubmittedInput(old(inputText)).Some? ==>
        var u := SubmittedInput(old(inputText)).value;
        State() == old(State()).(inputText := Placeholder, inputDimmed := true,
          chat := old(chat) + [ChatMessage(u, true)], canvas := None,
          requests := old(requests) + [u], inFlight := old(inFlight) + 1)
        && indicator.isRunning && indicator.visible && indicator.dots == NextDots(old(indicator.dots))
        && indicator.pendingTicks == old(indicator.pendingTicks) + 1
    {
      var submitted := SubmittedInput(inputText);
      if submitted.Some? {
        Submit(submitted.value);
      }
    }

    /** `on_enter_pressed` (lines 372-375): Enter without modifiers submits. */
    method OnEnterPressed(modifierState: int)
      requires Valid()
      modifies this, indicator
      ensures Valid()
      ensures modifierState != 0 ==> State() == old(State()) && unchanged(indicator)
      ensures modifierState == 0 && SubmittedInput(old(inputText)).None? ==>
        State() == old(State()) && unchanged(indicator)
      ensures modifierState == 0 && SubmittedInput(old(inputText)).Some? ==>
        var u := SubmittedInput(old(inputText)).value;
        State() == old(State()).(inputText := Placeholder, inputDimmed := true,
          chat := old(chat) + [ChatMessage(u, true)], canvas := None,
          requests := old(requests) + [u], inFlight := old(inFlight) + 1)
        && indicator.isRunning && indicator.visible && indicator.dots == NextDots(old(indicator.dots))
        && indicator.pendingTicks == old(indicator.pendingTicks) + 1
    {
      if modifierState == 0 {
        GenerateDiagram();
      }
    }

    /** `result_queue.put(item)` from a worker thread that has finished. */
    method Enqueue(item: Item)
      requires Valid() && inFlight > 0 && (item.Code? ==> IsFragment(item.code))
      modifies this
      ensures Valid()
      ensures State() == old(State()).(resultQueue := old(resultQueue) + [item], inFlight := old(inFlight) - 1)
    {
      resultQueue := resultQueue + [item];
      inFlight := inFlight - 1;
    }

    /** A worker finishes its completion (lines 457-461): the cleaned code is queued. */
    method GenerationSucceeded(reply: string)
      requires Valid() && inFlight > 0
      modifies this
      ensures Valid()
      ensures State() == old(State()).(resultQueue := old(resultQueue) + [Code(CleanTikzCode(reply))],
        inFlight := old(inFlight) - 1)
    {
      Enqueue(Code(CleanTikzCode(reply)));
    }

    /** A worker's request or stream raised (lines 467-470): the exception is queued. */
    method GenerationFailed(message: string)
      requires Valid() && inFlight > 0
      modifies this
      ensures Valid()
      ensures State() == old(State()).(resultQueue := old(resultQueue) + [Error(message)],
        inFlight := old(inFlight) - 1)
    {
      Enqueue(Error(message));
    }

    /** `render_tikz_async` (lines 543-545): starting the render thread is logged as a request. */
    method RenderTikzAsync(code: string)
      modifies this
      ensures State() == old(State()).(renders := old(renders) + [code])
    {
      renders := renders + [code];
    }

    /** `update_ui_with_result` (lines 582-598). */
    method UpdateUiWithResult(code: string)
      requires Consistent() && IsFragment(code)
      modifies this, indicator, codeView
      ensures Consistent()
      ensures State() == old(State()).(currentCode := code,
        chat := old(chat) + (if old(showChat) then [ChatMessage(code, false)] else []),
        renders := old(renders) + [code])
      ensures codeView.text == (if old(showChat) then old(codeView.text) else code)
      ensures codeView.Schedule() == old(codeView.Schedule())
      ensures !indicator.isRunning && !indicator.visible
      ensures indicator.Animation() == old(indicator.Animation()) && indicator.text == old(indicator.text)
    {
      currentCode := code;
      if !showChat {
        codeView.SetCode(code);
      }
      if showChat {
        chat := chat + [ChatMessage(code, false)];
      }
      RenderTikzAsync(code);
      indicator.Stop();
    }

    /** The handling of one popped item in `check_results` (lines 605-610). */
    method HandleItem(item: Item)
      requires Consistent() && (item.Code? ==> IsFragment(item.code))
      modifies this, indicator, codeView
      ensures Consistent()
      ensures State() == old(State()).(chat := old(chat) + DrainChat([item], old(showChat)),
        renders := old(renders) + CodesOf([item]),
        currentCode := LastCode([item], old(currentCode)))
      ensures codeView.text == (if old(showChat) then old(codeView.text) else LastCode([item], old(codeView.text)))
      ensures codeView.Schedule() == old(codeView.Schedule())
      ensures !indicator.isRunning && !indicator.visible
      ensures indicator.Animation() == old(indicator.Animation())
    {
      DrainOne(item, showChat, currentCode);
      DrainOne(item, showChat, codeView.text);
      match item
      case Error(m) =>
        chat := chat + [ChatMessage("Error: " + m, false)];
        indicator.Stop();
      case Code(c) =>
        UpdateUiWithResult(c);
    }

    /** One iteration of the loop in `check_results` (lines 604-610): pop the oldest item and handle it. */
    method PopItem()
      requires Consistent() && resultQueue != []
      modifies this, indicator, codeView
      ensures Consistent()
      ensures var item := old(resultQueue[0]);
        State() == old(State()).(resultQueue := old(resultQueue[1..]),
          chat := old(chat) + DrainChat([item], old(showChat)),
          renders := old(renders) + CodesOf([item]),
          currentCode := LastCode([item], old(currentCode)))
      ensures codeView.text == (if old(showChat) then old(codeView.text) else LastCode([old(resultQueue[0])], old(codeView.text)))
      ensures codeView.Schedule() == old(codeView.Schedule())
      ensures !indicator.isRunning && !indicator.visible
      ensures indicator.Animation() == old(indicator.Animation())
    {
      var item := resultQueue[0];
      assert item in resultQueue;
      resultQueue := resultQueue[1..];
      HandleItem(item);
    }

    /** The loop of `check_results` (lines 602-610): pop and handle items until the queue is empty. */
    method DrainQueue()
      requires Consistent()
      modifies this, indicator, codeView
      ensures Consistent()
      ensures var q := old(resultQueue);
        State() == old(State()).(resultQueue := [],
          chat := old(chat) + DrainChat(q, old(showChat)),
          renders := old(renders) + CodesOf(q),
          currentCode := LastCode(q, old(currentCode)))
      ensures codeView.text == (if old(showChat) then old(codeView.text) else LastCode(old(resultQueue), old(codeView.text)))
      ensures codeView.Schedule() == old(codeView.Schedule())
      ensures (indicator.isRunning, indicator.visible) ==
        if old(resultQueue) == [] then old((indicator.isRunning, indicator.visible)) else (false, false)
      ensures indicator.Animation() == old(indicator.Animation())
    {
      ghost var done: seq<Item> := [];
      while resultQueue != []
        invariant old(resultQueue) == done + resultQueue
        invariant Consistent()
        invariant State() == old(State()).(resultQueue := resultQueue,
          chat := old(chat) + DrainChat(done, old(showChat)),
          renders := old(renders) + CodesOf(done),
          currentCode := LastCode(done, old(currentCode)))
        invariant codeView.text == (if old(showChat) then old(codeView.text) else LastCode(done, old(codeView.text)))
        invariant codeView.Schedule() == old(codeView.Schedule())
        invariant (indicator.isRunning, indicator.visible) ==
          if done == [] then old((indicator.isRunning, indicator.visible)) else (false, false)
        invariant indicator.Animation() == old(indicator.Animation())
        decreases |resultQueue|
      {
        ghost var item := resultQueue[0];
        assert done + resultQueue == (done + [item]) + resultQueue[1..];
        PopItem();
        DrainStep(done, item, old(chat), old(renders), old(showChat), old(currentCode), old(codeView.text));
        done := done + [item];
      }
      assert done == old(resultQueue);
    }

    /**
     * `check_results` (lines 600-613): pop every queued item, in order; an
     * error becomes an "Error: " chat message and stops the indicator, code
     * goes through `update_ui_with_result`; then the next poll is scheduled
     * 100 ms later, whether or not anything was queued.
     */
    method CheckResults()
      requires Consistent()
      modifies this, indicator, codeView
      ensures Valid()
      ensures var q := old(resultQueue);
        State() == old(State()).(resultQueue := [],
          chat := old(chat) + DrainChat(q, old(showChat)),
          renders := old(renders) + CodesOf(q),
          currentCode := LastCode(q, old(currentCode)),
          pendingPolls := old(pendingPolls) + 1,
          pollDelays := old(pollDelays) + [PollDelayMs])
      ensures codeView.text == (if old(showChat) then old(codeView.text) else LastCode(old(resultQueue), old(codeView.text)))
      ensures codeView.Schedule() == old(codeView.Schedule())
      ensures (indicator.isRunning, indicator.visible) ==
        if old(resultQueue) == [] then old((indicator.isRunning, indicator.visible)) else (false, false)
      ensures indicator.Animation() == old(indicator.Animation())
    {
      DrainQueue();
      pendingPolls := pendingPolls + 1;
      pollDelays := pollDelays + [PollDelayMs];
    }

    /** Tk runs one scheduled `check_results`; it schedules the next, so the loop never dies. */
    method PollTimerFires()
      requires Valid()
      modifies this, indicator, codeView
      ensures Valid()
      ensures var q := old(resultQueue);
        State() == old(State()).(resultQueue := [],
          chat := old(chat) + DrainChat(q, old(showChat)),
          renders := old(renders) + CodesOf(q),
          currentCode := LastCode(q, old(currentCode)),
          pollDelays := old(pollDelays) + [PollDelayMs])
      ensures codeView.text == (if old(showChat) then old(codeView.text) else LastCode(old(resultQueue), old(codeView.text)))
      ensures codeView.Schedule() == old(codeView.Schedule())
      ensures (indicator.isRunning, indicator.visible) ==
        if old(resultQueue) == [] then old((indicator.isRunning, indicator.visible)) else (false, false)
      ensures indicator.Animation() == old(indicator.Animation())
    {
      pendingPolls := pendingPolls - 1;
      CheckResults();
    }

    /**
     * `update_canvas_with_image` (lines 547-555): the canvas is cleared and
     * the page is drawn only once the canvas has a size.
     */
    method UpdateCanvasWithImage(page: Page, canvasWidth: int, canvasHeight: int)
      requires Valid()
      modifies this
      ensures Valid()
      ensures State() == old(State()).(canvas := if canvasWidth > 1 && canvasHeight > 1 then Some(page) else None)
    {
      canvas := if canvasWidth > 1 && canvasHeight > 1 then Some(page) else None;
    }

    /**
     * A render thread reports back through `root.after(0, ...)` (lines
     * 532-541). A page goes to `update_canvas_with_image`. A failure
     * schedules `show_error`, which finds `e` already unbound and raises
     * inside Tk's callback handler: the chat does not change.
     */
    method RenderFinished(result: RenderResult, canvasWidth: int, canvasHeight: int)
      requires Valid()
      modifies this
      ensures Valid()
      ensures result.Rendered? ==> State() == old(State()).(
        canvas := if canvasWidth > 1 && canvasHeight > 1 then Some(result.page) else None)
      ensures result.RenderFailed? ==> State() == old(State())
    {
      match result
      case Rendered(page) =>
        UpdateCanvasWithImage(page, canvasWidth, canvasHeight);
      case RenderFailed(message) =>
        chat := chat + Posts(ShowErrorAsWritten(message));
    }

    /** The delivery as evidently intended: a failure adds its prefixed message to the chat. */
    method RenderFinishedIntended(result: RenderResult, canvasWidth: int, canvasHeight: int)
      requires Valid()
      modifies this
      ensures Valid()
      ensures result.Rendered? ==> State() == old(State()).(
        canvas := if canvasWidth > 1 && canvasHeight > 1 then Some(result.page) else None)
      ensures result.RenderFailed? ==> State() == old(State()).(
        chat := old(chat) + [ChatMessage(ErrorPrefix + result.message, false)])
    {
      match result
      case Rendered(page) =>
        UpdateCanvasWithImage(page, canvasWidth, canvasHeight);
      case RenderFailed(message) =>
        chat := chat + Posts(ShowErrorIntended(message));
    }

    /** A key release in the code editor: `CodeView.on_edit`. */
    method EditorEdited(edited: string)
      requires Valid()
      modifies codeView
      ensures Valid()
      ensures codeView.text == edited && codeView.pendingTimers == {old(codeView.nextTimerId)}
    {
      codeView.OnEdit(edited);
    }

    /** The editor's debounce timer runs out: the editor's text is rendered (lines 163-169). */
    method EditorTimerFires(id: nat)
      requires Valid() && id in codeView.pendingTimers
      modifies this, codeView
      ensures Valid()
      ensures codeView.pendingTimers == {}
      ensures codeView.text == old(codeView.text) && codeView.updateTimer == old(codeView.updateTimer)
      ensures codeView.nextTimerId == old(codeView.nextTimerId)
      ensures State() == old(State()).(renders := old(renders) + [old(codeView.text)])
    {
      var request := codeView.FirePreview(id);
      if request.Some? {
        RenderTikzAsync(request.value);
      }
    }
  }
}
