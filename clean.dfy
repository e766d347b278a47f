/**
 * `TikZGUI.clean_tikz_code` (tikz_gui.py:472-488): the text transform applied
 * to every completion before it is queued. It deletes Markdown code fences,
 * strips surrounding whitespace, and adds whichever of the
 * `\begin{tikzpicture}` / `\end{tikzpicture}` markers is absent. It never fails.
 */
module CleanTikz {
  import opened PyStr

  const Fence: string := "```"
  const LanguageTag: string := "tikz"
  const BeginMarker: string := "\\begin{tikzpicture}"
  const EndMarker: string := "\\end{tikzpicture}"

  /** What the program hands on as diagram code: both markers present, no fence left. */
  predicate IsFragment(t: string)
  {
    Contains(t, BeginMarker) && Contains(t, EndMarker) && !Contains(t, Fence)
  }

  /**
   * Length of the match of the regular expression ```(?:tikz)?\n? at the
   * start of `s`, or 0 when there is none: three backticks, then `tikz` if it
   * follows, then one newline if it follows (both optional parts are greedy).
   */
  function FenceMatchLength(s: string): (n: nat)
    ensures n == 0 <==> !OccursAt(s, Fence, 0)
    ensures n > 0 ==> 3 <= n <= |s|
    ensures n > 0 ==> s[..n] in {Fence, Fence + "\n", Fence + LanguageTag, Fence + LanguageTag + "\n"}
    ensures n > 0 ==> (n >= 7 <==> OccursAt(s, LanguageTag, 3))
    ensures n > 0 ==> var t := if n >= 7 then 7 else 3;
      n == (if t < |s| && s[t] == '\n' then t + 1 else t)
  {
    if |s| >= 3 && s[..3] == Fence then
      var afterTag := if |s| >= 7 && s[3..7] == LanguageTag then 7 else 3;
      var n := if afterTag < |s| && s[afterTag] == '\n' then afterTag + 1 else afterTag;
      assert s[..afterTag] == Fence + (if afterTag == 7 then LanguageTag else "");
      assert s[..n] == s[..afterTag] + s[afterTag..n];
      assert s[afterTag..n] == if n == afterTag then "" else "\n";
      n
    else 0
  }

  /**
   * `re.sub(r'```(?:tikz)?\n?', '', s)`: scan left to right, delete each
   * match and continue after it, keep a character where no match starts.
   */
  function StripFences(s: string): (r: string)
    ensures |r| <= |s|
    decreases |s|
  {
    if s == [] then []
    else
      var n := FenceMatchLength(s);
      if n > 0 then StripFences(s[n..]) else [s[0]] + StripFences(s[1..])
  }

  /** The first two characters of the output are backticks only if those of the input are. */
  lemma {:induction false} StripFencesLeadingBackticks(s: string)
    ensures var r := StripFences(s);
      (|r| > 0 && r[0] == '`' ==> |s| > 0 && s[0] == '`')
      && (|r| > 1 && r[0] == '`' && r[1] == '`' ==> |s| > 1 && s[0] == '`' && s[1] == '`')
  {
    if s != [] {
      var n := FenceMatchLength(s);
      if n > 0 {
        assert s[..3] == Fence;
        assert s[0] == '`' && s[1] == '`';
      } else {
        StripFencesLeadingBackticks(s[1..]);
      }
    }
  }

  /** One character put before a fence-free text creates a fence only with two backticks after it. */
  lemma PrependNoFence(c: char, rest: string)
    requires !Contains(rest, Fence)
    requires !(c == '`' && |rest| > 1 && rest[0] == '`' && rest[1] == '`')
    ensures !Contains([c] + rest, Fence)
  {
    var r := [c] + rest;
    forall i | 0 <= i <= |r| - |Fence|
      ensures !OccursAt(r, Fence, i)
    {
      if i > 0 {
        assert r[i..i + 3] == rest[i - 1..i + 2];
        assert !OccursAt(rest, Fence, i - 1);
      } else if c != '`' {
        MismatchNotOccurs(r, Fence, 0, 0);
      } else if rest[0] != '`' {
        MismatchNotOccurs(r, Fence, 0, 1);
      } else {
        MismatchNotOccurs(r, Fence, 0, 2);
      }
    }
  }

  /**
   * No triple backtick survives: leftmost non-overlapping deletion never
   * leaves one behind and never joins backticks from either side of a
   * deleted fence into a new one.
   */
  lemma {:induction false} StripFencesLeavesNoFence(s: string)
    ensures !Contains(StripFences(s), Fence)
  {
    if s != [] {
      var n := FenceMatchLength(s);
      if n > 0 {
        StripFencesLeavesNoFence(s[n..]);
      } else {
        var rest := StripFences(s[1..]);
        StripFencesLeavesNoFence(s[1..]);
        StripFencesLeadingBackticks(s[1..]);
        PrependNoFence(s[0], rest);
      }
    }
  }

  /** Text without a fence passes through the deletion unchanged. */
  lemma {:induction false} StripFencesIdentity(s: string)
    requires !Contains(s, Fence)
    ensures StripFences(s) == s
  {
    if s != [] {
      assert !OccursAt(s, Fence, 0);
      NotContainsSlice(s, Fence, 1, |s|);
      assert s[1..|s|] == s[1..];
      StripFencesIdentity(s[1..]);
    }
  }

  /** No character of `a` is a backtick. */
  predicate NoBacktick(a: string)
  {
    forall k :: 0 <= k < |a| ==> a[k] != '`'
  }

  /** A leading character other than a backtick is copied through. */
  lemma StripFencesCopiesPlainChar(s: string)
    requires s != [] && s[0] != '`'
    ensures StripFences(s) == [s[0]] + StripFences(s[1..])
  {
    assert !OccursAt(s, Fence, 0);
  }

  /** Putting back the first character of `a` in front of `a[1..] + rest` gives `a + rest`. */
  lemma ConsTail(a: string, x: string, rest: string)
    requires a != [] && x == [a[0]] + (a[1..] + rest)
    ensures x == a + rest
  {
    assert [a[0]] + a[1..] == a;
  }

  /** One step of the induction below: the plain first character of `a` is copied. */
  lemma StripFencesPlainStep(a: string, c: string, rest: string)
    requires a != [] && a[0] != '`'
    requires StripFences(a[1..] + c) == a[1..] + rest
    ensures StripFences(a + c) == a + rest
  {
    var s := a + c;
    assert s[0] == a[0] && s[1..] == a[1..] + c;
    StripFencesCopiesPlainChar(s);
    ConsTail(a, StripFences(s), rest);
  }

  /** A prefix without backticks is copied through; the deletion resumes after it. */
  lemma {:induction false} StripFencesPlainPrefix(a: string, c: string)
    requires NoBacktick(a)
    ensures StripFences(a + c) == a + StripFences(c)
  {
    if a == [] {
      assert a + c == c;
    } else {
      assert NoBacktick(a[1..]) by {
        forall k | 0 <= k < |a| - 1
          ensures a[1..][k] != '`'
        {
          assert a[1..][k] == a[k + 1];
        }
      }
      StripFencesPlainPrefix(a[1..], c);
      StripFencesPlainStep(a, c, StripFences(c));
    }
  }

  /** The begin marker's line does not contain the end marker. */
  lemma BeginLineLacksEndMarker()
    ensures !Contains(BeginMarker + "\n", EndMarker)
  {
    var t := BeginMarker + "\n";
    forall i | 0 <= i <= |t| - |EndMarker|
      ensures !OccursAt(t, EndMarker, i)
    {
      if i == 0 {
        MismatchNotOccurs(t, EndMarker, 0, 1);
      } else {
        MismatchNotOccurs(t, EndMarker, i, 0);
      }
    }
  }

  lemma MarkersLackBackticks()
    ensures !Contains(BeginMarker + "\n", Fence)
    ensures !Contains("\n" + EndMarker, Fence)
  {
    NotContainsWithoutFirstChar(BeginMarker + "\n", Fence);
    NotContainsWithoutFirstChar("\n" + EndMarker, Fence);
  }

  /**
   * Prepending the begin marker's line gives a text with the marker, in
   * which the original text follows intact, and which has a fence only if
   * the original had one.
   */
  lemma PrependBeginMarker(t: string)
    ensures var w := BeginMarker + "\n" + t;
      && Contains(w, BeginMarker)
      && OccursAt(w, t, |BeginMarker| + 1)
      && (!Contains(t, Fence) ==> !Contains(w, Fence))
  {
    var w := BeginMarker + "\n" + t;
    assert OccursAt(BeginMarker + "\n", BeginMarker, 0);
    ContainsAppend(BeginMarker + "\n", t, BeginMarker);
    assert w[|BeginMarker| + 1..|BeginMarker| + 1 + |t|] == t;
    if !Contains(t, Fence) {
      MarkersLackBackticks();
      NotContainsConcat(BeginMarker + "\n", t, Fence);
    }
  }

  /**
   * Appending the end marker's line gives a text with the end marker that
   * keeps every occurrence already in `w` (here: of the begin marker and of
   * the text at `j`), and adds no fence.
   */
  lemma AppendEndMarker(w: string, t: string, j: int)
    ensures var r := w + "\n" + EndMarker;
      && Contains(r, EndMarker)
      && (Contains(w, BeginMarker) ==> Contains(r, BeginMarker))
      && (!Contains(w, Fence) ==> !Contains(r, Fence))
      && (OccursAt(w, t, j) ==> OccursAt(r, t, j))
  {
    var r := w + "\n" + EndMarker;
    assert r == w + ("\n" + EndMarker);
    assert OccursAt("\n" + EndMarker, EndMarker, 1);
    ContainsPrepend(w, "\n" + EndMarker, EndMarker);
    if Contains(w, BeginMarker) {
      ContainsAppend(w, "\n" + EndMarker, BeginMarker);
    }
    if !Contains(w, Fence) {
      MarkersLackBackticks();
      NotContainsConcat(w, "\n" + EndMarker, Fence);
    }
    if OccursAt(w, t, j) {
      assert r[j..j + |t|] == w[j..j + |t|];
    }
  }

  /**
   * Lines 478-483: prepend the begin marker's line if the marker is absent,
   * then append the end marker's line if that marker is absent. Both
   * markers are then present, the text is kept intact (after the added
   * first line, if any), no fence is created, and a text with both markers
   * is returned as it is.
   */
  function EnsureEnvironment(t: string): (r: string)
    ensures Contains(r, BeginMarker) && Contains(r, EndMarker)
    ensures !Contains(t, Fence) ==> !Contains(r, Fence)
    ensures OccursAt(r, t, if Contains(t, BeginMarker) then 0 else |BeginMarker| + 1)
    ensures Contains(t, BeginMarker) && Contains(t, EndMarker) ==> r == t
  {
    var j := if Contains(t, BeginMarker) then 0 else |BeginMarker| + 1;
    var withBegin := if Contains(t, BeginMarker) then t else BeginMarker + "\n" + t;
    PrependBeginMarker(t);
    assert t[0..|t|] == t;
    AppendEndMarker(withBegin, t, j);
    if Contains(withBegin, EndMarker) then withBegin else withBegin + "\n" + EndMarker
  }

  /** `clean_tikz_code(code)`: every result contains both markers and no triple backtick. */
  function CleanTikzCode(code: string): (r: string)
    ensures IsFragment(r)
  {
    StripFencesLeavesNoFence(code);
    StripNotContains(StripFences(code), Fence);
    EnsureEnvironment(Strip(StripFences(code)))
  }

  /** When the de-fenced, stripped text already has both markers it is returned as it is. */
  lemma CleanTikzCodeKeepsCompleteText(code: string)
    requires var t := Strip(StripFences(code)); Contains(t, BeginMarker) && Contains(t, EndMarker)
    ensures CleanTikzCode(code) == Strip(StripFences(code))
  {
  }

  /** Empty or all-whitespace input yields just the two markers on their own lines. */
  lemma CleanTikzCodeBlank(code: string)
    requires forall k :: 0 <= k < |code| ==> IsSpace(code[k])
    ensures CleanTikzCode(code) == "\\begin{tikzpicture}\n\n\\end{tikzpicture}"
  {
    NotContainsWithoutFirstChar(code, Fence);
    StripFencesIdentity(code);
    assert Strip(code) == [];
    EnsureEnvironmentEmpty();
  }

  lemma EnsureEnvironmentEmpty()
    ensures EnsureEnvironment([]) == "\\begin{tikzpicture}\n\n\\end{tikzpicture}"
  {
    var w := BeginMarker + "\n";
    var r := EnsureEnvironment([]);
    assert !Contains([], BeginMarker);
    EnsureEnvironmentRepair([]);
    assert r[..|w|] == w;
    BeginLineLacksEndMarker();
    assert r[|w|..] == "\n" + EndMarker;
    assert r == r[..|w|] + r[|w|..];
  }

  /**
   * The output of `EnsureEnvironment` on stripped text starts and ends with
   * a non-space, so a second `strip()` leaves it alone.
   */
  lemma EnsureEnvironmentTrimmed(t: string)
    requires t == [] || (!IsSpace(t[0]) && !IsSpace(t[|t| - 1]))
    ensures var r := EnsureEnvironment(t);
      |r| > 0 && !IsSpace(r[0]) && !IsSpace(r[|r| - 1])
  {
    if t == [] {
      EnsureEnvironmentEmpty();
    } else {
      var withBegin := if Contains(t, BeginMarker) then t else BeginMarker + "\n" + t;
      WithBeginTrimmed(t, withBegin, Contains(withBegin, EndMarker));
    }
  }

  /** Both branches of the end-marker step keep the ends of a trimmed, non-empty text non-space. */
  lemma WithBeginTrimmed(t: string, withBegin: string, hasEnd: bool)
    requires t != [] && !IsSpace(t[0]) && !IsSpace(t[|t| - 1])
    requires withBegin == t || withBegin == BeginMarker + "\n" + t
    ensures var r := if hasEnd then withBegin else withBegin + "\n" + EndMarker;
      |r| > 0 && !IsSpace(r[0]) && !IsSpace(r[|r| - 1])
  {
    assert |withBegin| > 0 && !IsSpace(withBegin[0]);
    if hasEnd {
      assert withBegin[|withBegin| - 1] == t[|t| - 1];
    } else {
      var r := withBegin + "\n" + EndMarker;
      assert r[0] == withBegin[0];
      assert r[|r| - 1] == '}';
    }
  }

  /**
   * The exact repair of lines 478-483: the text is kept whole, with
   * `BeginMarker + "\n"` put in front exactly when the begin marker is
   * missing, and `"\n" + EndMarker` put after it exactly when what comes
   * before holds no end marker; nothing else is added.
   */
  lemma EnsureEnvironmentRepair(t: string)
    ensures var r := EnsureEnvironment(t);
      var head := if Contains(t, BeginMarker) then "" else BeginMarker + "\n";
      var k := |head| + |t|;
      && k <= |r|
      && r[..|head|] == head
      && r[|head|..k] == t
      && r[k..] == (if Contains(r[..k], EndMarker) then "" else "\n" + EndMarker)
  {
    var head := if Contains(t, BeginMarker) then "" else BeginMarker + "\n";
    var w := head + t;
    assert w == (if Contains(t, BeginMarker) then t else BeginMarker + "\n" + t);
    var tail := if Contains(w, EndMarker) then "" else "\n" + EndMarker;
    RepairPieces(head, t, tail, EnsureEnvironment(t));
  }

  /** A text that is `head + t + tail` splits back into the three pieces. */
  lemma RepairPieces(head: string, t: string, tail: string, r: string)
    requires r == head + t + tail
    ensures |head| + |t| <= |r|
    ensures r[..|head|] == head && r[|head|..|head| + |t|] == t
    ensures r[..|head| + |t|] == head + t && r[|head| + |t|..] == tail
  {
  }

  /** Cleaning twice is the same as cleaning once. */
  lemma CleanTikzCodeIdempotent(code: string)
    ensures CleanTikzCode(CleanTikzCode(code)) == CleanTikzCode(code)
  {
    var t := Strip(StripFences(code));
    var r := CleanTikzCode(code);
    assert r == EnsureEnvironment(t);
    StripFencesIdentity(r);
    EnsureEnvironmentTrimmed(t);
    StripUnchanged(r);
    assert CleanTikzCode(r) == EnsureEnvironment(r);
  }

  /**
   * A reply wrapped in a ```tikz fence is cleaned exactly as the bare code
   * inside it, when that code has no backticks of its own.
   */
  lemma CleanTikzCodeUnwrapsFencedBlock(body: string)
    requires forall k :: 0 <= k < |body| ==> body[k] != '`'
    ensures CleanTikzCode("```tikz\n" + body + "\n```") == CleanTikzCode(body)
  {
    var s := "```tikz\n" + body + "\n```";
    assert s[..3] == Fence && s[3..7] == LanguageTag && s[7] == '\n';
    assert FenceMatchLength(s) == 8;
    assert s[8..] == (body + "\n") + Fence;
    assert NoBacktick(body + "\n") by {
      forall k | 0 <= k < |body| + 1
        ensures (body + "\n")[k] != '`'
      {
        if k < |body| {
          assert (body + "\n")[k] == body[k];
        }
      }
    }
    StripFencesPlainPrefix(body + "\n", Fence);
    assert FenceMatchLength(Fence) == 3;
    assert StripFences(Fence) == [] by {
      assert Fence[3..] == [];
    }
    assert StripFences(s) == body + ['\n'];
    StripTrailingSpace(body, '\n');
    NotContainsWithoutFirstChar(body, Fence);
    StripFencesIdentity(body);
  }
}
