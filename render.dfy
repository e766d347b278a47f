/**
 * The decisions of `TikZGUI.render_tikz` (tikz_gui.py:490-541): the fixed
 * `standalone` document that wraps the TikZ code, and which of the three
 * failures or the first page comes out, given what `pdflatex`, the file
 * system and the PDF converter reported.
 */
module RenderTikz {
  import opened PyStr
  import opened Optional

  const Preamble: string := "\\documentclass[tikz,border=10pt]{standalone}\n\\usepackage{tikz}\n\\begin{document}\n"
  const Closing: string := "\n\\end{document}"
  const PdfName: string := "diagram.pdf"

  /** A raster page produced by the PDF converter; only its size is kept. */
  datatype Page = Page(width: nat, height: nat)

  /** What `subprocess.run(["pdflatex", ...])` reported. */
  datatype PdfLatexRun = PdfLatexRun(returnCode: int, stdout: string, stderr: string)

  /** The first page to show, or the message of the exception raised. */
  datatype RenderResult = Rendered(page: Page) | RenderFailed(message: string)

  /** The LaTeX document written to diagram.tex (lines 502-506). */
  function LatexDocument(code: string): (doc: string)
    ensures |doc| == |Preamble| + |code| + |Closing|
    ensures doc[..|Preamble|] == Preamble && doc[|doc| - |Closing|..] == Closing
    ensures OccursAt(doc, code, |Preamble|)
  {
    assert (Preamble + code + Closing)[|Preamble|..|Preamble| + |code|] == code;
    Preamble + code + Closing
  }

  /** The code is recovered from the document by cutting off the fixed preamble and closing. */
  function DocumentBody(doc: string): (code: string)
    requires |doc| >= |Preamble| + |Closing|
  {
    doc[|Preamble|..|doc| - |Closing|]
  }

  /** The template always has the fixed preamble and closing, and wraps the code without altering it. */
  lemma LatexDocumentRoundTrip(code: string)
    ensures var doc := LatexDocument(code);
      |doc| == |Preamble| + |code| + |Closing|
      && doc[..|Preamble|] == Preamble
      && doc[|doc| - |Closing|..] == Closing
      && DocumentBody(doc) == code
  {
    var doc := LatexDocument(code);
    assert doc[..|Preamble|] == Preamble;
    assert doc[|doc| - |Closing|..] == Closing;
    assert doc[|Preamble|..|doc| - |Closing|] == code;
  }

  /** `os.path.join(dir, name)` on POSIX, for a relative `name`. */
  function PathJoin(dir: string, name: string): (path: string)
    ensures |path| >= |name| && path[|path| - |name|..] == name
    ensures |path| >= |dir| && path[..|dir|] == dir
  {
    if dir == [] || dir[|dir| - 1] == '/' then dir + name else dir + "/" + name
  }

  /** The message of the exception raised when pdflatex exits with a non-zero code (lines 516-518). */
  function CompileFailureMessage(run: PdfLatexRun): (m: string)
    ensures var head := "pdflatex failed with code " + IntToString(run.returnCode) + "\n";
      |head| <= |m| && m[..|head|] == head
    ensures |run.stderr| <= |m| && m[|m| - |run.stderr|..] == run.stderr
  {
    "pdflatex failed with code " + IntToString(run.returnCode) + "\n"
    + "STDOUT:\n" + run.stdout + "\n"
    + "STDERR:\n" + run.stderr
  }

  /**
   * Lines 515-534: a non-zero exit code fails with the compiler's output; a
   * missing diagram.pdf fails; a conversion that yields no page fails;
   * otherwise the first page is shown. `pdfExists` and `pages` are the
   * file-system check and the converter's result, consulted only in turn.
   */
  function RenderOutcome(tempDir: string, run: PdfLatexRun, pdfExists: bool, pages: seq<Page>): (r: RenderResult)
    ensures r.Rendered? <==> run.returnCode == 0 && pdfExists && |pages| > 0
    ensures r.Rendered? ==> r.page == pages[0]
  {
    if run.returnCode != 0 then RenderFailed(CompileFailureMessage(run))
    else if !pdfExists then RenderFailed("PDF file not created at " + PathJoin(tempDir, PdfName))
    else if pages == [] then RenderFailed("Failed to convert PDF to image")
    else Rendered(pages[0])
  }

  /**
   * A failed compilation reports its exit code on the first line and carries
   * pdflatex's standard output and standard error.
   */
  lemma CompileFailureReported(tempDir: string, run: PdfLatexRun, pdfExists: bool, pages: seq<Page>)
    requires run.returnCode != 0
    ensures var r := RenderOutcome(tempDir, run, pdfExists, pages);
      var head := "pdflatex failed with code " + IntToString(run.returnCode) + "\n";
      r.RenderFailed?
      && |head| <= |r.message| && r.message[..|head|] == head
      && Contains(r.message, run.stdout)
      && Contains(r.message, run.stderr)
  {
    var pre := "pdflatex failed with code " + IntToString(run.returnCode) + "\n" + "STDOUT:\n";
    var mid := "\n" + "STDERR:\n";
    assert CompileFailureMessage(run) == pre + run.stdout + mid + run.stderr;
    ContainsBothParts(pre, run.stdout, mid, run.stderr);
  }

  /** A text built as `pre + x + mid + y` contains `x` and `y`. */
  lemma ContainsBothParts(pre: string, x: string, mid: string, y: string)
    ensures Contains(pre + x + mid + y, x) && Contains(pre + x + mid + y, y)
  {
    var m := pre + x + mid + y;
    assert m == pre + x + (mid + y);
    OccursBetween(pre, x, mid + y);
    assert m == (pre + x + mid) + y + [];
    OccursBetween(pre + x + mid, y, []);
  }

  /** Once pdflatex has failed, neither the PDF check nor the conversion affects the outcome. */
  lemma CompileFailureStopsEarly(tempDir: string, run: PdfLatexRun, e1: bool, p1: seq<Page>, e2: bool, p2: seq<Page>)
    requires run.returnCode != 0
    ensures RenderOutcome(tempDir, run, e1, p1) == RenderOutcome(tempDir, run, e2, p2)
  {
  }

  /** The first line of `t`, without its newline. */
  function FirstLine(t: string): (line: string)
  {
    if t == [] || t[0] == '\n' then [] else [t[0]] + FirstLine(t[1..])
  }

  lemma {:induction false} FirstLineOf(s: string, rest: string)
    requires '\n' !in s
    ensures FirstLine(s + "\n" + rest) == s
  {
    if s == [] {
      assert s + "\n" + rest == "\n" + rest;
    } else {
      assert (s + "\n" + rest)[0] == s[0];
      assert (s + "\n" + rest)[1..] == s[1..] + "\n" + rest;
      FirstLineOf(s[1..], rest);
    }
  }

  /** The failure message is a fixed prefix, the exit code, a newline and the rest. */
  lemma FailureMessageAfterPrefix(run: PdfLatexRun) returns (rest: string)
    ensures var pre := "pdflatex failed with code ";
      CompileFailureMessage(run)[|pre|..] == IntToString(run.returnCode) + "\n" + rest
  {
    var pre := "pdflatex failed with code ";
    rest := "STDOUT:\n" + run.stdout + "\n" + "STDERR:\n" + run.stderr;
    var tail := IntToString(run.returnCode) + "\n" + rest;
    assert CompileFailureMessage(run) == pre + tail;
    DropPrefix(pre, tail);
  }

  lemma DropPrefix(pre: string, tail: string)
    ensures (pre + tail)[|pre|..] == tail
  {
  }

  /** Distinct exit codes give distinct failure messages: the code can be read back from the first line. */
  lemma CompileFailureNamesCode(run1: PdfLatexRun, run2: PdfLatexRun)
    requires run1.returnCode != run2.returnCode
    ensures CompileFailureMessage(run1) != CompileFailureMessage(run2)
  {
    var s1 := IntToString(run1.returnCode);
    var s2 := IntToString(run2.returnCode);
    IntToStringRoundTrip(run1.returnCode);
    IntToStringRoundTrip(run2.returnCode);
    var rest1 := FailureMessageAfterPrefix(run1);
    var rest2 := FailureMessageAfterPrefix(run2);
    FirstLineOf(s1, rest1);
    FirstLineOf(s2, rest2);
  }

  // ---------------------------------------------------------------------
  // The failure callback

  const ErrorPrefix: string := "Error rendering diagram: "

  /** What a callback handed to `root.after` does once Tk runs it. */
  datatype CallbackOutcome = Posted(chatText: string) | Raised

  /**
   * The body of `show_error` (lines 538-540) run against the binding of the
   * exception name `e` it finds: with the exception bound it posts the
   * prefixed message; with `e` unbound it raises `NameError` and posts nothing.
   */
  function ShowError(e: Option<string>): (o: CallbackOutcome)
    ensures o.Posted? <==> e.Some?
    ensures o.Posted? ==>
      && |ErrorPrefix| <= |o.chatText|
      && o.chatText[..|ErrorPrefix|] == ErrorPrefix
      && o.chatText[|ErrorPrefix|..] == e.value
  {
    match e
    case Some(m) => Posted(ErrorPrefix + m)
    case None => Raised
  }

  /**
   * `show_error` as the source schedules it (lines 536-541). Python deletes
   * the name bound by `except ... as e` when the except clause ends, and
   * the closure reads `e` only when Tk runs it on the interactive thread,
   * after the render thread has left the clause.
   */
  function ShowErrorAsWritten(message: string): (o: CallbackOutcome)
    ensures o == Raised
  {
    ShowError(None)
  }

  /** `show_error` as evidently intended: the message is captured when the callback is made. */
  function ShowErrorIntended(message: string): (o: CallbackOutcome)
    ensures o == Posted(ErrorPrefix + message)
  {
    ShowError(Some(message))
  }

  /**
   * No render failure ever reaches the chat as written, whereas the
   * intended callback posts every message, recoverable from its text.
   */
  lemma RenderFailureNeverShown(m1: string, m2: string)
    ensures ShowErrorAsWritten(m1) == ShowErrorAsWritten(m2) == Raised
    ensures ShowErrorIntended(m1) != ShowErrorAsWritten(m1)
    ensures ShowErrorIntended(m1) == ShowErrorIntended(m2) <==> m1 == m2
  {
    var o1 := ShowErrorIntended(m1);
    var o2 := ShowErrorIntended(m2);
    if o1 == o2 {
      assert m1 == o1.chatText[|ErrorPrefix|..];
    }
  }
}
