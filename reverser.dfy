/** The submit handler of the String Reverser window: strip the entry text,
    reject an empty result, otherwise reverse it and show it either in the
    result label or, for long results, in a modal dialog. */
module StringReverser {
  import opened Text

  /** Results longer than this many characters go to a modal dialog. */
  const ModalThreshold: nat := 10

  /** The inline error written when the stripped entry text is empty. */
  const EmptyMessage := "Input cannot be empty!"

  /** Prefix of the inline result and of the info log line. */
  const ResultPrefix := "Reversed String: "

  /** Title of the modal dialog that shows a long result. */
  const ModalTitle := "Reversed String"

  /** Colour of a successful inline result (`result_fg` of the palette). */
  const ResultColor := "#A3BE8C"

  /** Colour of the inline error. */
  const ErrorColor := "red"

  /** What one submission shows: the inline error, the reversed text in the
      result label, or the reversed text in a modal dialog. */
  datatype Outcome = EmptyInput | Inline(reversed: string) | Modal(reversed: string)

  /** A modal dialog, as handed to the message box. */
  datatype Dialog = Dialog(title: string, body: string)

  /** The text written to the result label, and to the info log, for a result. */
  function ResultLine(reversed: string): string {
    ResultPrefix + reversed
  }

  /** One submission of the entry text `raw`. */
  function Submit(raw: string): (o: Outcome)
    ensures o.EmptyInput? <==> AllSpace(raw)
    ensures o.Inline? <==> 0 < |Strip(raw)| <= ModalThreshold
    ensures o.Modal? <==> |Strip(raw)| > ModalThreshold
    ensures !o.EmptyInput? ==> o.reversed == Reverse(Strip(raw))
  {
    var input := Strip(raw);
    if input == [] then EmptyInput
    else
      var reversed := Reverse(input);
      if |reversed| > ModalThreshold then Modal(reversed) else Inline(reversed)
  }

  /** A shown result holds the stripped input mirrored index by index, and
      reversing it again gives back the stripped input exactly. */
  lemma SubmitMirrors(raw: string)
    requires !Submit(raw).EmptyInput?
    ensures var r, t := Submit(raw).reversed, Strip(raw);
      && |r| == |t| && 0 < |r|
      && (forall k :: 0 <= k < |t| ==> r[k] == t[|t| - 1 - k])
      && Reverse(r) == t
  {
    ReverseInvolution(Strip(raw));
  }

  /** A shown result neither starts nor ends with whitespace. */
  lemma SubmitTrimmed(raw: string)
    requires !Submit(raw).EmptyInput?
    ensures var r := Submit(raw).reversed;
      r != [] && !IsSpace(r[0]) && !IsSpace(r[|r| - 1])
  {
    ReverseKeepsTrimmed(Strip(raw));
  }

  /** The outcome depends only on the stripped text: submitting the stripped
      text gives the same outcome as submitting the raw text. */
  lemma SubmitStripInvariant(raw: string)
    ensures Submit(Strip(raw)) == Submit(raw)
  {
    StripIdempotent(raw);
  }

  /** Leading and trailing whitespace in the entry never change the outcome. */
  lemma SubmitIgnoresPadding(pre: string, raw: string, post: string)
    requires AllSpace(pre) && AllSpace(post)
    ensures Submit(pre + raw + post) == Submit(raw)
  {
    StripPadded(pre, raw, post);
  }

  /** Two entries with the same outcome strip to the same text. */
  lemma SubmitDeterminesInput(raw1: string, raw2: string)
    requires Submit(raw1) == Submit(raw2)
    ensures Strip(raw1) == Strip(raw2)
  {
    ReverseInjective(Strip(raw1), Strip(raw2));
  }

  /** An entry with no whitespace at either end is reversed as a whole. */
  lemma SubmitUnpadded(t: string)
    requires t != [] && !IsSpace(t[0]) && !IsSpace(t[|t| - 1])
    ensures Submit(t) == if |t| > ModalThreshold then Modal(Reverse(t)) else Inline(Reverse(t))
  {
    StripUnique(t, 0, |t|);
  }

  /** A short entry is shown inline, prefixed in the label. */
  lemma SubmitHello()
    ensures Submit("hello") == Inline("olleh")
    ensures ResultLine(Submit("hello").reversed) == "Reversed String: olleh"
  {
    SubmitUnpadded("hello");
    ReverseExamples();
  }

  /** A seven-character result is shown inline. */
  lemma SubmitTkinter()
    ensures Submit("tkinter") == Inline("retnikt")
  {
    SubmitUnpadded("tkinter");
    ReverseExamples();
  }

  /** Surrounding blanks and a tab are stripped before reversing. */
  lemma SubmitPaddedTkinter()
    ensures Submit("  tkinter\t") == Inline("retnikt")
  {
    SubmitTkinter();
    assert AllSpace("  ") && AllSpace("\t");
    assert "  " + "tkinter" + "\t" == "  tkinter\t";
    SubmitIgnoresPadding("  ", "tkinter", "\t");
  }

  /** An eleven-character result goes to the dialog. */
  lemma SubmitEleven()
    ensures Submit("abcdefghijk") == Modal("kjihgfedcba")
  {
    SubmitUnpadded("abcdefghijk");
    ReverseExamples();
  }

  /** Empty and blank entries are rejected. */
  lemma SubmitBlank()
    ensures Submit("") == EmptyInput && Submit("   ") == EmptyInput
  {
    assert AllSpace("   ");
  }

  /** The application window, reduced to the display state the submit handler
      reads and writes. `entryText` is the entry box content, which the user
      edits; `labelText` and `labelColor` are the result label's `text` and
      `fg`; `entryFocused` says whether the entry box has the keyboard focus;
      `dialogs` lists the modal dialogs shown so far, in order; `infoLog`
      lists the messages logged at info level. */
  class StringReverserApp {
    var entryText: string
    var labelText: string
    var labelColor: string
    var entryFocused: bool
    var dialogs: seq<Dialog>
    var infoLog: seq<string>

    /** A fresh window: empty entry with the focus, empty result label in
        the result colour, no dialog shown, nothing logged. */
    constructor ()
      ensures entryText == "" && labelText == "" && labelColor == ResultColor
      ensures entryFocused && dialogs == [] && infoLog == []
    {
      entryText := "";
      labelText := "";
      labelColor := ResultColor;
      entryFocused := true;
      dialogs := [];
      infoLog := [];
    }

    /** Shows `message` in the result label in red and gives the focus back
        to the entry box. */
    method DisplayError(message: string)
      modifies this`labelText, this`labelColor, this`entryFocused
      ensures labelText == message && labelColor == ErrorColor && entryFocused
    {
      labelText := message;
      labelColor := ErrorColor;
      entryFocused := true;
    }

    /** The submit handler. It reads the entry box and never writes it; what
        it writes is exactly the display for `Submit(entryText)`. */
    method ReverseString()
      modifies this`labelText, this`labelColor, this`entryFocused, this`dialogs, this`infoLog
      ensures entryText == old(entryText)
      ensures match Submit(entryText)
        case EmptyInput =>
          && labelText == EmptyMessage && labelColor == ErrorColor && entryFocused
          && dialogs == old(dialogs) && infoLog == old(infoLog)
        case Inline(r) =>
          && labelText == ResultLine(r) && labelColor == ResultColor
          && entryFocused == old(entryFocused) && dialogs == old(dialogs)
          && infoLog == old(infoLog) + [ResultLine(r)]
        case Modal(r) =>
          && labelText == old(labelText) && labelColor == old(labelColor)
          && entryFocused == old(entryFocused)
          && dialogs == old(dialogs) + [Dialog(ModalTitle, r)]
          && infoLog == old(infoLog) + [ResultLine(r)]
    {
      var userInput := Strip(entryText);
      if userInput == [] {
        assert Submit(entryText) == EmptyInput;
        DisplayError(EmptyMessage);
        return;
      }
      var reversed := Reverse(userInput);
      assert Submit(entryText) == if |reversed| > ModalThreshold then Modal(reversed) else Inline(reversed);
      infoLog := infoLog + [ResultLine(reversed)];
      if |reversed| > ModalThreshold {
        dialogs := dialogs + [Dialog(ModalTitle, reversed)];
      } else {
        labelText := ResultLine(reversed);
        labelColor := ResultColor;
      }
    }
  }

  /** A user session: a long entry opens a dialog and leaves the label alone,
      a short one then overwrites the label, and a blank one puts the red
      error there without opening a dialog or logging, leaving the entry as
      the user typed it. */
  method Session()
  {
    var app := new StringReverserApp();
    app.entryText := "abcdefghijk";
    SubmitEleven();
    app.ReverseString();
    assert app.dialogs == [Dialog("Reversed String", "kjihgfedcba")];
    assert app.labelText == "";
    app.entryText := "hello";
    SubmitHello();
    app.ReverseString();
    assert app.labelText == "Reversed String: olleh" && app.labelColor == "#A3BE8C";
    assert |app.dialogs| == 1 && |app.infoLog| == 2;
    app.entryText := "   ";
    SubmitBlank();
    app.ReverseString();
    assert app.labelText == "Input cannot be empty!" && app.labelColor == "red";
    assert app.entryText == "   " && |app.dialogs| == 1 && |app.infoLog| == 2;
  }
}
