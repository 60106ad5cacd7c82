# Page-script handlers, modelled in Dafny

`script.js` wires a handful of DOM event handlers. Four of them carry small,
fully determined behaviour, and this project lifts each one out of its handler
and proves what it does:

- **formatString and the format form** (`format_form.dfy`, on top of
  `strings.dfy`): the text is trimmed and upper-cased; an empty outcome is shown
  as `(empty)`.
- **The greeting form** (`greet_form.dfy`): the typed name is trimmed; a
  non-empty name gives `Hello, <name>!` and focuses the greeting, anything else
  gives `Please enter a name.`.
- **The countdown button** (`countdown.dfy`): the list is cleared and the items
  5, 4, 3, 2, 1 are appended in a loop. The list is a class with a `seq<string>`
  field; the handler is a method whose loop invariant says the list holds the
  descending run from 5 down to the last value appended.
- **The toggle button** (`toggle.dfy`): the box's `hidden` class is flipped and the
  button's `aria-expanded` attribute set to `String(!hidden)`. The box and
  button are a class with a `bool` and a `string` field.

`strings.dfy` models `String.prototype.trim` and `toUpperCase`. Trimming strips
the WhiteSpace and LineTerminator code points of sections 11.2 and 11.3 of
ECMA-262 (6th edition), listed in full, Unicode category Zs included.
`Trim` is computed by `TrimStart` and `TrimEnd`. It is also characterised
independently: `IsTrimOf(r, s)` holds when `r` is `s` minus an all-whitespace
prefix and suffix and has no whitespace at either end. Two lemmas show that
`Trim(s)` is the one string with that property. Upper-casing maps ASCII `a`–`z`
to `A`–`Z` and leaves every other character alone. It is likewise shown to be
the one string without lower-case letters that equals the input when case is
ignored.

## Model

| member | source | states |
|---|---|---|
| `Strings.TrimStart` | script.js:21 | removes exactly the longest all-whitespace prefix: the result is a suffix of the input, everything cut off is whitespace, and the result does not start with whitespace |
| `Strings.TrimEnd` | script.js:21 | removes exactly the longest all-whitespace suffix, symmetrically |
| `Strings.Trim` | script.js:21 | `trim()`: no longer than the input, no whitespace at either end, empty exactly when the input is all whitespace |
| `Strings.TrimIsTrimOf` | script.js:21 | `trim()` removes a whitespace-only prefix and suffix and leaves no edge whitespace (the independent definition) |
| `Strings.TrimOfIsUnique` | script.js:21 | any string meeting that definition is `trim()`'s result, so the definition and `Trim` agree in both directions |
| `Strings.TrimOfTrimmed` | script.js:21 | trimming a string with no edge whitespace returns it unchanged |
| `Strings.TrimIdempotent` | script.js:21 | trimming twice is trimming once |
| `Strings.ToUpper` | script.js:21 | `toUpperCase()` on ASCII: the result has no lower-case letter, equals the input ignoring case, and keeps every whitespace character in place |
| `Strings.ToUpperIsUnique` | script.js:21 | the upper-cased string is the only case-insensitively equal string without lower-case letters |
| `Strings.ToUpperKeepsTrimmed` | script.js:21 | upper-casing a string with no edge whitespace leaves it with none |
| `Strings.ToUpperOfUpper` | script.js:21 | upper-casing a string without lower-case letters changes nothing |
| `FormatForm.FormatString` | script.js:20-22 | `formatString`: never longer than the input, no edge whitespace, no lower-case letter, empty exactly when the input is all whitespace |
| `FormatForm.FormatStringKeepsText` | script.js:20-22 | the result is the trimmed input up to letter case |
| `FormatForm.FormatStringIdempotent` | script.js:20-22 | `formatString(formatString(s)) == formatString(s)` |
| `FormatForm.PlaceholderHasLowercase` | script.js:97 | no string free of lower-case letters, so no formatted text, equals `(empty)` |
| `FormatForm.FormatResultText` | script.js:96-97 | the form shows `(empty)` exactly when the raw text is all whitespace, and otherwise shows `formatString(raw)` unchanged |
| `FormatForm.FormatResultStable` | script.js:96-97 | re-submitting the displayed text (other than the placeholder) displays the same text |
| `GreetForm.Greet` | script.js:51-53 | focus is requested exactly when the trimmed name is non-empty; the text is then `Hello, <trimmed name>!`, and otherwise exactly `Please enter a name.` |
| `GreetForm.PromptExactlyWhenBlank` | script.js:51-52 | the prompt is displayed if and only if the name is all whitespace |
| `GreetForm.GreetedNameRoundTrip` | script.js:51-52 | the name read back from between `Hello, ` and `!` is the trimmed input, non-empty and without edge whitespace |
| `GreetForm.GreetIgnoresSurroundingWhitespace` | script.js:51-52 | greeting a pre-trimmed name gives the same outcome as greeting the raw input |
| `Countdown.NumberText` | script.js:65 | the text a number item gets is non-empty, all decimal digits, with no leading zero |
| `Countdown.NumberTextRoundTrip` | script.js:65 | reading the digits of an item's text back gives the number |
| `Countdown.NumberTextInjective` | script.js:65 | distinct numbers give distinct item texts |
| `Countdown.DescendingRun` | script.js:63-66 | the items appended so far: `hi - lo` texts, the k-th being the text of `hi - k` |
| `Countdown.FullRunIsFiveToOne` | script.js:63-67 | the full run from 5 is exactly `["5","4","3","2","1"]` |
| `Countdown.CountdownList.constructor` | script.js:59 | the list starts with whatever items the page holds |
| `Countdown.CountdownList.Click` | script.js:62-67 | after a click the list is exactly `["5","4","3","2","1"]` whatever it held before; the loop invariant keeps the list equal to the descending run from 5 down to the last value appended |
| `Countdown.ClickTwice` | script.js:61-67 | two clicks in a row leave the same list as one |
| `ToggleBox.BoolText` | script.js:107 | `String(b)` is `"true"` exactly when `b` holds and `"false"` exactly when it does not |
| `ToggleBox.Toggle.constructor` | script.js:102-103 | the box's class and the button's attribute start as the page's markup sets them |
| `ToggleBox.Toggle.Click` | script.js:105-109 | a click flips `hidden`, sets aria-expanded to `"false"` when hidden and `"true"` when shown, and focuses the box only when it became visible |
| `ToggleBox.ClickTwice` | script.js:105-107 | two clicks restore `hidden`, and restore aria-expanded whenever it agreed with the box before |

## Left out

- Strings.ToUpper: upper-cases ASCII letters only; full Unicode case mapping (including mappings that change length, such as `ß` to `SS`) is not modelled.
- Strings: characters are Unicode scalar values, whereas JavaScript strings are UTF-16 code units; lone surrogates are not representable.
- `calculateTotal` and the total form (script.js:14-16, 77-88): they rest on `Number` parsing, floating-point multiplication, `Number.isFinite` and `toFixed(2)`.
- The top-level demonstrations (script.js:6-7, 17, 23, 30-33) and the body-wide click logger (script.js:113-115) only write to the console.
- The page-title text (script.js:41-42) is a single constant assignment with no behaviour to prove.
- DOM plumbing is modelled only by its effect on state: element lookup and the presence checks that skip a handler when an element is missing, listener registration, `preventDefault`, `createElement`/`appendChild` (an item is its text) and `innerHTML = ''` (the list becomes empty). A `focus()` call is reported as a boolean, not performed.
- Form validation, an interaction log, counters and accordions are not part of `script.js` and are not modelled.
