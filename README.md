# Form validation of the bicycle registration and theft-report pages

This project is a Dafny model of the field-validation layer in `main.js`. The
page has two forms:

- the registration form, `"registro"`, with the fields nombre, apellidos,
  edad and email;
- the theft-report form, `"robo"`, with the fields dia, hora and tipo (the
  bicycle type).

On submit, `validarFormulario` does the following:

1. It reads every field of the chosen form and trims it.
2. It runs every validator of that form, without stopping at the first
   failure. Each failing validator shows one alert and clears a shared flag.
3. It ends with one summary alert: success or "review the form".

The model has five modules:

- `JsText` (js_text.dfy): the ECMAScript white-space class, shared by
  `String.prototype.trim`, the regular-expression escape `\s` and `parseInt`,
  together with `trim` and its two halves.
- `JsParseInt` (js_parse_int.dfy): `parseInt` called without a radix, the
  way `validarEdad` calls it. It has two forms:
  - a reference definition, `ParseIntPrefix`: skip white space, read an
    optional sign, select radix 16 after `0x`/`0X` and radix 10 otherwise,
    then take the longest digit run, or NaN when the run is empty;
  - a left-to-right scanning method proved equal to that definition.
- `EmailPattern` (email_pattern.dfy): the pattern
  `^[^\s@]+@[^\s@]+\.[^\s@]+$`, in three forms that are proved equivalent:
  - as a language, the ways a string splits into the pattern's five pieces;
  - as a shape: no white space, exactly one `@` at index 1 or later, and a
    dot inside the part after it;
  - as a one-pass scanner.
- `Validators` (validators.dfy): the seven `validar*` functions. Each returns
  a `Verdict`: the boolean result and the alerts it raised. An alert is a
  value of the `Alert` datatype, and `Text` gives its exact on-screen words.
- `Formulario` (formulario.dfy): the submit handler `ValidarFormulario`.
  - The DOM is a map from control id to raw value.
  - The handler's two `if` branches are the methods `RunRegistro` and
    `RunRobo`. Each one reads and trims the controls in source order and
    then updates the flag and the alert log one validator at a time.
  - The handler appends the summary.
  - The contract of the handler is stated over rules (`Rule`,
    `RulesFor`, `Check`), the trimmed form (`Trimmed`) and the alert list
    `Failures`.

Two consequences of main.js that shape the model:

- A missing control makes `document.querySelector(...)` return `null`, so
  reading `.value` throws a `TypeError` before any alert is shown. The model
  returns `Threw(id)`, naming the first missing control in reading order.
- Every value is trimmed before it is validated (main.js:27-30, 40-42).
  `validarDia`, `validarHora` and `validarTipo` accept a whitespace-only
  string on their own, but the handler never passes them one. So a
  whitespace-only day, time or bicycle type fails end to end
  (`Formulario.BlankControlFails`).

## Model

| member | source | states |
|---|---|---|
| JsText.TrimStartFacts | main.js:89 | the leading-white-space strip keeps a suffix, drops only white space, and what it keeps does not start with white space |
| JsText.TrimEndFacts | main.js:27-30 | the trailing-white-space strip keeps a prefix, drops only white space, and what it keeps does not end with white space |
| JsText.Trim | main.js:27-30 | `trim` yields a string that neither starts nor ends with white space |
| JsText.TrimSplits | main.js:40-42 | the input is a white-space prefix, then the trimmed value, then a white-space suffix |
| JsText.TrimOfPadded | main.js:27-30 | trimming any white-space padding around a tight string gives that string back, so the split is unique |
| JsText.TrimIdempotent | main.js:27-30 | trimming twice is trimming once |
| JsText.TrimEmptyIff | main.js:40-42 | `trim` yields "" exactly when the input is all white space |
| JsParseInt.DigitRunLength | main.js:89 | the length of the longest prefix made of digits of the radix: all of it are digits and the next character is not |
| JsParseInt.ParseSigned | main.js:89 | the sign step of parseInt: a number needs some text, and a negative one needs a leading '-' |
| JsParseInt.ParseIntPrefix | main.js:89 | parseInt(edad) with no radix: skip white space, read an optional sign, select radix 16 after "0x"/"0X" and 10 otherwise, take the longest digit run, NaN when it is empty; a number needs text after the white space, and a negative one needs a '-' there |
| JsParseInt.ScanDigits | main.js:89 | the digit loop stops where the longest digit run ends and accumulates that run's value |
| JsParseInt.SkipWhitespace | main.js:89 | the white-space loop stops where the leading-white-space strip stops |
| JsParseInt.ScanUnsigned | main.js:89 | after the sign, the scan selects radix 16 after "0x"/"0X" and radix 10 otherwise, and gives NaN for an empty digit run |
| JsParseInt.ParseIntScan | main.js:89 | the one-pass scan computes the reference parse `ParseIntPrefix` for every input |
| JsParseInt.DecimalStringFacts | main.js:89 | the decimal spelling of n is all digits, denotes n, and starts with '0' only for 0 |
| JsParseInt.ParseUnsignedDecimal | main.js:89 | the unsigned part reads back a decimal spelling followed by text that does not continue it |
| JsParseInt.ParseAfterSign | main.js:89 | before a digit, a '-' negates the value and a '+' keeps it |
| JsParseInt.ParseDecimal | main.js:89 | a decimal spelling followed by a non-digit (and, after a lone "0", not an 'x' or 'X') is read back as its value, with a '-' or '+' sign applied |
| JsParseInt.ParseHexExample | main.js:89 | with no radix argument, "0x10" parses as 16 |
| JsParseInt.ParseIgnoresLeadingWhitespace | main.js:89 | leading white space never changes the result |
| JsParseInt.ParseNoDigits | main.js:89-90 | text that starts with no digit, sign or white space parses as NaN |
| EmailPattern.MatchesPattern | main.js:103-104 | `patron.test(email)`: the string splits into atom "@" atom "." atom, each atom non-empty without white space or '@'; so a match has at least five characters, does not start with '@', and holds an '@' and a '.' |
| EmailPattern.PatternIsShape | main.js:103-104 | a string matches the anchored pattern iff it has no white space, exactly one '@' at index 1 or later, and a '.' after the '@' with a character on each side |
| EmailPattern.ShapeOfSplit | main.js:103 | every split into atom "@" atom "." atom has that shape |
| EmailPattern.SplitOfShape | main.js:103 | every string of that shape splits into atom "@" atom "." atom |
| EmailPattern.ScanEmail | main.js:103-104 | the one-pass scanner accepts exactly the strings the pattern matches |
| EmailPattern.AcceptedExamples | main.js:103-104 | "a@b.co" and "a@b.c.d" match |
| EmailPattern.RejectsNoDot | main.js:103-104 | "a@b" does not match |
| EmailPattern.RejectsEmptyLocal | main.js:103-104 | "@c.com" does not match |
| EmailPattern.RejectsTwoAts | main.js:103-104 | "a@@b.c" does not match |
| EmailPattern.RejectsSpace | main.js:103-104 | "a b@c.com" does not match |
| Validators.Text | main.js:51-144 | the exact words of the nine alerts, with the form kind interpolated into the two summaries; each is a sentence ending in a full stop |
| Validators.ValidarNombre | main.js:62-68 | passes iff the name has at least 2 characters, with one alert exactly when it fails |
| Validators.ValidarApellidos | main.js:75-81 | passes iff the surnames have at least 2 characters, with one alert exactly when it fails |
| Validators.LengthBoundary | main.js:62-81 | both length rules agree; 2 characters pass, 0 or 1 fail |
| Validators.ValidarEdad | main.js:88-95 | passes iff parseInt gives a number in [0, 120], with one alert exactly when it fails |
| Validators.EdadDecimal | main.js:88-95 | a decimal age followed by a non-digit passes iff it is at most 120; with a minus sign only 0 passes |
| Validators.EdadNonNumeric | main.js:89-90 | text with no leading number fails the age rule |
| Validators.EdadOfDecimal | main.js:88-95 | the age rule on any signed decimal string with a tail: passes iff n <= 120, and n is 0 when negative |
| Validators.EdadExamples | main.js:88-95 | "30abc", "3.9", "30x", "0", "120", "-0" and "0x10" pass; "-1", "121", "abc" and "" fail |
| Validators.ValidarEmail | main.js:102-109 | passes iff the address has the pattern's shape, with one alert exactly when it fails |
| Validators.ValidarDia | main.js:116-122 | rejects exactly the empty string, with one alert exactly then |
| Validators.ValidarHora | main.js:129-135 | rejects exactly the empty string, with one alert exactly then |
| Validators.ValidarTipo | main.js:142-148 | rejects exactly "", with one alert exactly then |
| Formulario.RulesFor | main.js:26-47 | "registro" runs nombre, apellidos, edad, email and "robo" runs dia, hora, tipo, in that order; the list is empty exactly for any other kind, and no rule appears twice |
| Formulario.Summary | main.js:50-54 | the closing alert is the success text iff the flag held, otherwise the review text, and it names the form kind |
| Formulario.Check | main.js:32-35 | every rule raises its own alert, once, exactly when it rejects |
| Formulario.FirstMissing | main.js:27-30 | the control where reading stops is missing, and every control read before it exists |
| Formulario.Trimmed | main.js:27-30 | the trimmed form has the same controls as the page |
| Formulario.ValidarFormulario | main.js:20-55 | throws iff a control of the form is missing, naming the first; otherwise the flag is true iff every rule passes on the trimmed values, the log is the failing rules' alerts in field order then one summary, and an unknown kind yields only the success summary |
| Formulario.RunRegistro | main.js:26-36 | the registration branch throws at the first missing control, otherwise its flag and log are the registration rules' verdict and failures |
| Formulario.RunRobo | main.js:39-47 | the theft-report branch throws at the first missing control, otherwise its flag and log are the theft rules' verdict and failures |
| Formulario.FirstMissingAt | main.js:27-30 | when the controls before the k-th exist and the k-th does not, the k-th is where reading stops |
| Formulario.RegistroReads | main.js:27-30 | the registration form is complete iff nombre, apellidos, edad and email all exist, and reading stops at the first missing one |
| Formulario.RoboReads | main.js:40-42 | the theft form is complete iff dia, hora and tipo all exist, and reading stops at the first missing one |
| Formulario.RegistroRules | main.js:32-35 | over the four trimmed values, the registration rules all pass iff the four validators pass, and their alerts are those of the four validators in order |
| Formulario.RoboRules | main.js:44-46 | over the three trimmed values, the theft rules all pass iff the three validators pass, and their alerts are those of the three validators in order |
| Formulario.FailuresEmptyIffAllPass | main.js:50-54 | no alert comes before the summary exactly when every rule passed, so the success summary is shown exactly when nothing else was |
| Formulario.MessagesDistinct | main.js:64-144 | the seven validators' alerts are pairwise different |
| Formulario.MessageTextsDistinct | main.js:64-144 | the seven rules' alert texts are pairwise different, so the words on screen tell which rule failed |
| Formulario.MessageTextLength | main.js:64-144 | the seven alert texts have seven different lengths |
| Formulario.FailuresNameFailedRules | main.js:32-46 | a rule's alert is in the log iff that rule runs and rejects its field, so there is no short-circuit and no spurious alert |
| Formulario.EveryRuleRejectsEmpty | main.js:62-148 | every one of the seven rules rejects the empty string |
| Formulario.BlankControlFails | main.js:27-46 | a control holding only white space fails its rule after trimming, whatever the rule |
| Formulario.PaddingIgnored | main.js:27-46 | white space around a value never changes its verdict, so " a " fails the name rule as "a" does |

## Left out

- DOM wiring: the `DOMContentLoaded` listener and the `submit` listeners
  (main.js:5-11). This is event plumbing. The form kind and the field map
  are parameters of `ValidarFormulario` instead.
- `document.querySelector(...).value` (main.js:27-30, 40-42) is a lookup in
  a map from control id to raw value. A missing key is the `null` that
  makes `.value` throw.
- `ev.preventDefault()` (main.js:21) is a browser side effect with no
  logical content.
- `alert` is not a blocking UI call here. It is appended to the log as an
  `Alert` value, and `Text` gives its words.
- `JsText.IsWhitespace` is the fixed list of ECMAScript WhiteSpace and
  LineTerminator code points. It does not track later Unicode versions'
  changes to the space-separator category.
- Strings are sequences of characters. UTF-16 code units and surrogate
  pairs are not modelled, so `length` counts characters.
- `JsParseInt.ParseIntPrefix` returns an unbounded integer. It does not
  model the floating-point rounding of very long digit strings, which
  cannot change the age verdict because such values exceed 120. It also
  maps the result -0 (from "-0") to 0, which gives the same verdict, since
  -0 < 0 is false.
- parseInt is modelled only with an undefined radix, the only way main.js
  calls it.
- The success and failure summaries (main.js:50-54) are the `Alert` values
  `Enviado(tipo)` and `Revisar(tipo)`, with the kind interpolated by
  `Text`.
