# String Reverser — a Dafny model of the submit handler

String Reverser is a small Tkinter window. The user types a line into an entry box and presses Submit or Return. The handler `StringReverserApp.reverse_string` then does four things:

1. It strips leading and trailing whitespace from the entry text.
2. If nothing is left, it writes `Input cannot be empty!` in red to the result label, gives the focus back to the entry box, and stops.
3. Otherwise it reverses the text with `[::-1]` and logs `Reversed String: <reversed>` at info level.
4. If the reversed text is longer than 10 characters, it shows it in a modal dialog titled `Reversed String`. Otherwise it overwrites the result label with `Reversed String: <reversed>` in the `result_fg` colour `#A3BE8C`.

The model has two modules.

- `Text` (`text.dfy`) holds the two Python string operations. `Strip` is Python's no-argument `str.strip()`. `IsSpace` is an exact table of the code points for which Python's `str.isspace` is true. `Reverse` is the slice `s[::-1]` over code points. Strip is characterised as the unique middle slice of its input that has only whitespace around it. It is idempotent, and padding with whitespace does not change it. Reverse mirrors indices, keeps the length, and is an involution.
- `StringReverser` (`reverser.dfy`) holds the handler. `Submit` is the pure decision: empty input, inline result or modal result. `StringReverserApp` is a class whose fields are the display state the handler touches: the entry text, the label text and colour, the entry focus, the dialogs shown so far, and the info log. Its `ReverseString` method writes exactly the fields that `Submit`'s outcome calls for. It never writes the entry text.

The method `Session` at the end of `reverser.dfy` is an example user session with no contract of its own. It shows the class in use: a long entry opens a dialog, a short one writes the label, and a blank one writes the red error.

The modal threshold, the messages, the dialog title and both colours are named constants. The threshold is `ModalThreshold = 10`.

## Model

| member | source | states |
|---|---|---|
| `Text.IsSpace` | main.py:89 | defines the whitespace that `strip()` removes: true exactly for the code points of Python's `str.isspace` (tab through carriage return, the four separators U+001C–U+001F, space, U+0085, no-break space, and the Unicode space separators and line and paragraph separators) |
| `Text.AllSpace` | main.py:89 | defines an entry that strips to nothing: every character is whitespace, which holds vacuously for the empty entry |
| `Text.TrimStart` | main.py:89 | defines left stripping: drops one leading whitespace character at a time until the string is empty or starts with non-whitespace; `TrimStartSuffix` states what it returns |
| `Text.TrimEnd` | main.py:89 | defines right stripping: drops one trailing whitespace character at a time until the string is empty or ends with non-whitespace; `TrimEndPrefix` states what it returns |
| `Text.TrimStartSuffix` | main.py:89 | left stripping returns the suffix of the input that starts at the first non-whitespace character; everything before it is whitespace |
| `Text.TrimEndPrefix` | main.py:89 | right stripping returns the prefix of the input that ends at the last non-whitespace character; everything after it is whitespace |
| `Text.Strip` | main.py:89 | `strip()` never lengthens its input; it returns the empty string exactly when every character is whitespace; a non-empty result starts and ends with non-whitespace |
| `Text.StripBounds` | main.py:89 | the stripped text is a contiguous slice `s[i..j]` with only whitespace before `i` and after `j` |
| `Text.StripUnique` | main.py:89 | any slice with only whitespace around it, and non-whitespace at both ends when non-empty, is exactly what `strip()` returns |
| `Text.StripIdempotent` | main.py:89 | stripping an already stripped string changes nothing |
| `Text.TrimStartSkipsSpace` | main.py:89 | whitespace placed in front of a string is removed entirely by left stripping |
| `Text.TrimStartKeepsTail` | main.py:89 | after the first non-whitespace character, left stripping keeps everything, including appended text |
| `Text.TrimEndSkipsSpace` | main.py:89 | whitespace placed after a string is removed entirely by right stripping |
| `Text.StripPadded` | main.py:89 | whitespace added before or after a string does not change its stripped form |
| `Text.Reverse` | main.py:98 | `s[::-1]` has the same length as `s`; by definition its character `k` is character `len-1-k` of `s` |
| `Text.ReverseAppend` | main.py:98 | reversing `a + b` gives the reversal of `b` followed by the reversal of `a`, so the first character becomes the last |
| `Text.ReverseExamples` | main.py:98 | `hello`, `tkinter` and `abcdefghijk` reverse to `olleh`, `retnikt` and `kjihgfedcba` |
| `Text.ReverseInvolution` | main.py:98 | reversing twice gives the original string back |
| `Text.ReverseInjective` | main.py:98 | different strings have different reversals |
| `Text.ReverseKeepsTrimmed` | main.py:98 | a string whose ends are non-whitespace still has non-whitespace ends once reversed |
| `StringReverser.ResultLine` | main.py:99-103 | defines the text of the f-string `Reversed String: {reversed_string}`, which is both the info log line and the label text |
| `StringReverser.Submit` | main.py:87-103 | the outcome is the empty-input error exactly when the entry is all whitespace (including empty); it is inline exactly when the stripped length is 1 to 10; it is modal exactly when the stripped length exceeds 10; the shown text is the reversal of the stripped entry |
| `StringReverser.SubmitMirrors` | main.py:89-98 | a shown result is non-empty, has the stripped entry's length, mirrors it index by index, and reverses back to it |
| `StringReverser.SubmitTrimmed` | main.py:89-98 | a shown result neither starts nor ends with whitespace |
| `StringReverser.SubmitStripInvariant` | main.py:89 | submitting the stripped entry gives the same outcome as submitting the raw entry |
| `StringReverser.SubmitIgnoresPadding` | main.py:89 | entries that differ only in leading or trailing whitespace give the same outcome |
| `StringReverser.SubmitDeterminesInput` | main.py:89-98 | two entries with the same shown result have the same stripped text |
| `StringReverser.SubmitUnpadded` | main.py:89-103 | an entry with no whitespace at either end is reversed whole and routed by its own length |
| `StringReverser.SubmitHello` | main.py:87-103 | `hello` is shown inline as `olleh`, and the label reads `Reversed String: olleh` |
| `StringReverser.SubmitTkinter` | main.py:87-103 | `tkinter` is shown inline as `retnikt` |
| `StringReverser.SubmitPaddedTkinter` | main.py:87-103 | blanks and a tab around `tkinter` are stripped, and the entry is still shown inline as `retnikt` |
| `StringReverser.SubmitEleven` | main.py:87-101 | `abcdefghijk` (11 characters) goes to the modal dialog as `kjihgfedcba` |
| `StringReverser.SubmitBlank` | main.py:89-94 | the empty entry and an all-blank entry are both rejected |
| `StringReverser.StringReverserApp.constructor` | main.py:67-77 | a new window has an empty entry with the focus, an empty label in `result_fg`, no dialog and no log line |
| `StringReverser.StringReverserApp.DisplayError` | main.py:119-122 | the label shows the message in red and the entry box gets the focus back; nothing else changes |
| `StringReverser.StringReverserApp.ReverseString` | main.py:87-106 | the entry text is never changed. For empty input: the label reads `Input cannot be empty!` in red, the entry has the focus, and no dialog or log line is added. For a result of 1 to 10 characters: the label reads `Reversed String: ` plus the result in `#A3BE8C`, one info line is logged, and no dialog is added. For a longer result: one dialog titled `Reversed String` with the result as body is added, one info line is logged, and the label is left alone |

## Left out

- The `except` branch (main.py:104-106) is not modelled. Stripping and slicing a string cannot raise. The calls that the `try` wraps (main.py:97-103) are treated as calls that cannot fail: `self.logger.info`, `messagebox.showinfo` and `self.result_label.config`. So over `seq<char>` this path cannot be reached. No failure mode is invented for it, and neither `logger.error` nor that branch's `messagebox.showerror` dialog is modelled.
- `reverse_string_event` (main.py:110-112) only calls `reverse_string`, so it is not modelled separately. The Return and Escape key bindings (main.py:19-20) are event wiring.
- `on_escape` (main.py:113-116) logs a line and calls `root.quit()`. That is process control, not logic.
- Logging configuration (main.py:24-34) is left out. Info-level log calls appear only as the `infoLog` sequence of messages. Timestamps, levels and handlers are not modelled.
- Widget construction, layout, fonts, window geometry and icon loading (main.py:51-83) are left out. The exception is the initial state of the entry, the result label and the focus, which the constructor records.
- The colour palette (main.py:38-48) is left out except for `result_fg` (`#A3BE8C`) and the literal `red`. Both are opaque strings.
- Modal blocking and event dispatch (`messagebox`, `mainloop`, main.py:126-130) are left out. A dialog appears only as one more entry in `dialogs`.
- User typing into the entry box happens outside the handler. It is modelled as a client assigning `entryText`.
- Text is a sequence of code points, as Python reverses it. Grapheme clusters and Unicode normalisation are not modelled. `IsSpace` is a fixed table of Python's whitespace code points (U+0009–U+000D, U+001C–U+0020, U+0085, U+00A0, U+1680, U+2000–U+200A, U+2028, U+2029, U+202F, U+205F, U+3000).
