/**
 * The stateful widgets of tikz_gui.py, stripped of their Tk presentation:
 * the size arithmetic of `MessageBubble`, the dot counter of
 * `LoadingIndicator`, and the edit debounce of `CodeView`.
 */
module Widgets {
  import opened PyStr
  import opened Optional

  // ---------------------------------------------------------------------
  // MessageBubble (tikz_gui.py:24-64): only the size computed from the text
  // ---------------------------------------------------------------------

  const CharsPerLine: nat := 60
  const LineHeight: nat := 20
  const MinBubbleHeight: nat := 25
  const MaxBubbleHeight: nat := 300
  const CharWidth: nat := 8
  const MaxBubbleWidth: nat := 400

  /**
   * `len(message) // 60 + message.count('\n') + 1` (line 38): never less
   * than one, and one exactly for a message shorter than a line with no
   * newline.
   */
  function BubbleLines(message: string): (lines: nat)
    ensures lines >= 1
    ensures lines == 1 <==> |message| < CharsPerLine && '\n' !in message
  {
    CountCharZero(message, '\n');
    |message| / CharsPerLine + CountChar(message, '\n') + 1
  }

  /**
   * `max(25, min(300, num_lines * 20))` (line 39): 20 pixels per line,
   * clamped to the range from 25 to 300.
   */
  function BubbleHeight(message: string): (h: nat)
    ensures MinBubbleHeight <= h <= MaxBubbleHeight
    ensures BubbleLines(message) * LineHeight >= MaxBubbleHeight ==> h == MaxBubbleHeight
    ensures BubbleLines(message) * LineHeight <= MinBubbleHeight ==> h == MinBubbleHeight
    ensures MinBubbleHeight <= BubbleLines(message) * LineHeight <= MaxBubbleHeight ==>
      h == BubbleLines(message) * LineHeight
  {
    var raw := BubbleLines(message) * LineHeight;
    var capped := if raw < MaxBubbleHeight then raw else MaxBubbleHeight;
    if capped < MinBubbleHeight then MinBubbleHeight else capped
  }

  /** `min(400, len(message) * 8)` (line 45): 8 pixels per character, capped at 400. */
  function BubbleWidth(message: string): (w: nat)
    ensures w <= MaxBubbleWidth && w <= |message| * CharWidth
    ensures w == MaxBubbleWidth || w == |message| * CharWidth
  {
    if |message| * CharWidth < MaxBubbleWidth then |message| * CharWidth else MaxBubbleWidth
  }

  /** Appending text to a message never makes its bubble smaller. */
  lemma BubbleGrowsWithMessage(message: string, more: string)
    ensures BubbleHeight(message) <= BubbleHeight(message + more)
    ensures BubbleWidth(message) <= BubbleWidth(message + more)
  {
    CountCharConcat(message, more, '\n');
    assert |message| / CharsPerLine <= (|message| + |more|) / CharsPerLine;
    assert BubbleLines(message) <= BubbleLines(message + more);
  }

  /** Exactly the short messages without a newline get the minimum height. */
  lemma BubbleSingleLine(message: string)
    ensures BubbleHeight(message) == MinBubbleHeight <==> |message| < CharsPerLine && '\n' !in message
  {
  }

  /** A character's count is zero exactly when the character does not occur. */
  lemma {:induction false} CountCharZero(s: string, c: char)
    ensures CountChar(s, c) == 0 <==> c !in s
  {
    if s != [] {
      assert s == s[..|s| - 1] + [s[|s| - 1]];
      CountCharZero(s[..|s| - 1], c);
    }
  }

  // ---------------------------------------------------------------------
  // LoadingIndicator (tikz_gui.py:174-202)
  // ---------------------------------------------------------------------

  /** `(dots + 1) % 4` (line 200). */
  function NextDots(dots: nat): (d: nat)
    ensures d < 4
  {
    (dots + 1) % 4
  }

  /** The counter runs 0, 1, 2, 3 and back to 0: four steps bring any valid count back. */
  lemma DotsCycle(dots: nat)
    requires dots < 4
    ensures NextDots(NextDots(NextDots(NextDots(dots)))) == dots
    ensures NextDots(dots) != dots
  {
  }

  /**
   * A label that animates "", ".", "..", "..." while a job runs. Each
   * `update_dots` call schedules the next one with `after(500, ...)`;
   * `pendingTicks` counts those scheduled calls that have not run yet.
   */
  class LoadingIndicator {
    var dots: nat
    var isRunning: bool
    var text: string
    var visible: bool
    var pendingTicks: nat

    /** The dot count and the scheduled animation steps. */
    ghost function Animation(): (nat, nat)
      reads this
    {
      (dots, pendingTicks)
    }

    /** The label shows `dots` dots, `dots` being below four. */
    ghost predicate ShowsDots()
      reads this
    {
      dots < 4 && text == Repeat('.', dots)
    }

    /** ... and while running, the next animation step is always scheduled. */
    ghost predicate Valid()
      reads this
    {
      ShowsDots() && (isRunning ==> pendingTicks > 0)
    }

    /** Lines 175-186; the caller's `grid(...)` at line 297 makes it visible. */
    constructor ()
      ensures Valid()
      ensures dots == 0 && !isRunning && text == "" && visible && pendingTicks == 0
    {
      dots := 0;
      isRunning := false;
      text := "";
      visible := true;
      pendingTicks := 0;
    }

    /** `update_dots` (lines 197-202). */
    method UpdateDots()
      requires ShowsDots()
      modifies this
      ensures Valid()
      ensures isRunning == old(isRunning) && visible == old(visible)
      ensures old(isRunning) ==> dots == NextDots(old(dots)) && pendingTicks == old(pendingTicks) + 1
      ensures !old(isRunning) ==> dots == old(dots) && text == old(text) && pendingTicks == old(pendingTicks)
    {
      if !isRunning {
        return;
      }
      dots := NextDots(dots);
      text := Repeat('.', dots);
      pendingTicks := pendingTicks + 1;
    }

    /** `start` (lines 188-191). */
    method Start()
      requires Valid()
      modifies this
      ensures Valid()
      ensures isRunning && visible
      ensures dots == NextDots(old(dots)) && pendingTicks == old(pendingTicks) + 1
    {
      isRunning := true;
      UpdateDots();
      visible := true;
    }

    /** `stop` (lines 193-195): the scheduled tick is not cancelled; it will find the flag off. */
    method Stop()
      requires Valid()
      modifies this
      ensures Valid()
      ensures !isRunning && !visible
      ensures dots == old(dots) && text == old(text) && pendingTicks == old(pendingTicks)
    {
      isRunning := false;
      visible := false;
    }

    /** Tk runs one of the scheduled `update_dots` calls. */
    method Tick()
      requires Valid() && pendingTicks > 0
      modifies this
      ensures Valid()
      ensures isRunning == old(isRunning) && visible == old(visible)
      ensures old(isRunning) ==> dots == NextDots(old(dots)) && pendingTicks == old(pendingTicks)
      ensures !old(isRunning) ==> dots == old(dots) && pendingTicks == old(pendingTicks) - 1
    {
      pendingTicks := pendingTicks - 1;
      UpdateDots();
    }
  }

  // ---------------------------------------------------------------------
  // CodeView (tikz_gui.py:90-172): the editor's text and its preview debounce
  // ---------------------------------------------------------------------

  /**
   * The code editor. `updateTimer` is the id of the last `after(500,
   * update_preview)` call; `pendingTimers` holds the ids Tk has scheduled
   * and neither cancelled nor run; `nextTimerId` stands for Tk's fresh ids.
   */
  class CodeView {
    var text: string
    var updateTimer: Option<nat>
    var pendingTimers: set<nat>
    var nextTimerId: nat
    var hasParent: bool

    /** Everything but the text: the timers and the parent link. */
    ghost function Schedule(): (Option<nat>, set<nat>, nat, bool)
      reads this
    {
      (updateTimer, pendingTimers, nextTimerId, hasParent)
    }

    /** At most one preview is pending, and it is the one `updateTimer` names. */
    ghost predicate Valid()
      reads this
    {
      pendingTimers <= Elements(updateTimer)
      && (updateTimer.Some? ==> updateTimer.value < nextTimerId)
    }

    /** Lines 91-123: empty text, no timer. */
    constructor ()
      ensures Valid()
      ensures text == "" && updateTimer == None && pendingTimers == {} && !hasParent
    {
      text := "";
      updateTimer := None;
      pendingTimers := {};
      nextTimerId := 0;
      hasParent := false;
    }

    /** `set_parent_gui` (lines 171-172). */
    method SetParentGui()
      requires Valid()
      modifies this
      ensures Valid() && hasParent
      ensures text == old(text) && updateTimer == old(updateTimer) && pendingTimers == old(pendingTimers)
      ensures nextTimerId == old(nextTimerId)
    {
      hasParent := true;
    }

    /** `set_code` (lines 125-129); the syntax highlighting it triggers is not modelled. */
    method SetCode(code: string)
      requires Valid()
      modifies this
      ensures Valid() && text == code
      ensures updateTimer == old(updateTimer) && pendingTimers == old(pendingTimers)
      ensures nextTimerId == old(nextTimerId) && hasParent == old(hasParent)
    {
      text := code;
    }

    /**
     * A key release in the editor (`on_edit`, lines 152-158): `edited` is the
     * text after the keystroke. The pending preview, if any, is cancelled and
     * a fresh one scheduled, so exactly one is pending afterwards.
     */
    method OnEdit(edited: string)
      requires Valid()
      modifies this
      ensures Valid() && text == edited && hasParent == old(hasParent)
      ensures updateTimer == Some(old(nextTimerId)) && pendingTimers == {old(nextTimerId)}
      ensures nextTimerId == old(nextTimerId) + 1
    {
      text := edited;
      if updateTimer.Some? {
        pendingTimers := pendingTimers - {updateTimer.value};
      }
      updateTimer := Some(nextTimerId);
      pendingTimers := pendingTimers + {nextTimerId};
      nextTimerId := nextTimerId + 1;
    }

    /**
     * Tk runs the pending `update_preview` (lines 163-169): it asks the
     * parent to render the editor's text, if a parent is set. `update_timer`
     * keeps the spent id.
     */
    method FirePreview(id: nat) returns (request: Option<string>)
      requires Valid() && id in pendingTimers
      modifies this
      ensures Valid()
      ensures request == (if hasParent then Some(text) else None)
      ensures pendingTimers == {} && updateTimer == old(updateTimer)
      ensures text == old(text) && hasParent == old(hasParent) && nextTimerId == old(nextTimerId)
    {
      pendingTimers := pendingTimers - {id};
      request := if hasParent then Some(text) else None;
    }
  }

  /** However the editor is used, no more than one preview is ever pending. */
  lemma AtMostOnePendingPreview(view: CodeView)
    requires view.Valid()
    ensures |view.pendingTimers| <= 1
  {
    var e := Elements(view.updateTimer);
    assert |e| <= 1;
    SubsetCardinality(view.pendingTimers, e);
  }

  lemma SubsetCardinality(a: set<nat>, b: set<nat>)
    requires a <= b
    ensures |a| <= |b|
  {
    assert b == a + (b - a);
  }
}
