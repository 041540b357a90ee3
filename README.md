# Tip calculator form controller, in Dafny

This project models the `Card` component of a tip calculator. The component holds:

- a bill amount, a head count and a tip, each entered as text;
- five preset tip percentages and a custom tip field;
- one error message per field;
- a reset button.

The model covers these parts of it:

- `validateInput`, which turns a field's text into an error message. The rules are tried in order and the first match wins: empty text, a minus sign, a leading number of zero, text that is not a number.
- The coercions `billValue`, `peopleCount` and `tipPercentage`.
- The memoised calculation of the tip and the total per person.
- The five state cells and the three event handlers that change them: `handleInputChange`, `handleTipSelect` and `handleReset`.
- The `isResetDisabled` predicate.
- The preset list `tipOptions`.

It is split into four modules:

- `Wrappers` (`wrappers.dfy`): the `Option` type used for JavaScript's `null`-or-value cells.
- `JsNumber` (`js_number.dfy`): the JavaScript conversions that the component relies on.
  - `parseFloat`, `parseInt` without a radix, and `Number` on a string, which `isNaN` applies.
  - `x || 0` as `OrZero`.
  - These are given as concrete definitions following the ECMAScript string-to-number grammar, restricted to finite decimal literals; `parseInt` also reads the `0x`/`0X` hexadecimal prefix, as JavaScript's does when no radix is given. A number is `NaN` or an exact `real`.
- `Card` (`card.dfy`): the component itself.
  - `Form` is a value holding the five cells. `InputChanged`, `TipSelected` and `Initial` are the handlers as pure transitions on it. `Consistent` is the invariant of every reachable state.
  - The class `CardState` holds the same five cells as mutable fields. Its handler methods are proved against those transitions, and each keeps `Valid()`, which is `Consistent` of the current state.
- `CardProperties` (`card_properties.dfy`): properties that relate several operations:
  - when the amounts are non-zero;
  - how the validation rules rank;
  - worked examples;
  - what a fractional head count does.

## Model

| member | source | states |
|---|---|---|
| Card.ValidateInput | src/components/Card.jsx:16-22 | No contract of its own: the five rules in the source's order. What it means is stated by `Card.ValidationRules` (which message, exactly when) and `Card.ValidMeansBlankOrPositive` (what is accepted). |
| Card.TipOptions | src/components/Card.jsx:77 | A constant, no contract: the five presets 5, 10, 15, 25 and 50 in button order; `Card.CardState.HandleTipSelect` and `CardProperties.AtMostOnePresetSelected` rely on it. |
| Card.BillValue | src/components/Card.jsx:11 | `parseFloat(bill)`, or 0 when that is falsy: blank text gives 0, and text without a minus sign never gives a negative amount. |
| Card.PeopleCount | src/components/Card.jsx:12 | `parseInt(people)`, or 0 when that is falsy: blank text gives 0, text without a minus sign never gives a negative count, and the count is always a whole number. |
| Card.TipPercentage | src/components/Card.jsx:13 | A selected preset is the percentage; with no preset, a custom tip without a minus sign never gives a negative percentage. |
| Card.Derived | src/components/Card.jsx:25-42 | The amounts are zero unless no field shows an error and both the bill and the head count are positive. |
| Card.Initial | src/components/Card.jsx:5-9 | A value, no contract: the `useState` initial values, which `handleReset` restores; `CardProperties.InitialIsDisabled` states that it is reachable and has reset disabled. |
| Card.Consistent | src/components/Card.jsx:44-59 | A predicate, no contract: every error is the validation of its field's text, and a preset is one of `tipOptions` with the custom tip empty. The handlers keep it (`Card.InputChangedConsistent`, `Card.TipSelected`, `Card.CardState.HandleReset`). |
| Card.ResetDisabled | src/components/Card.jsx:69-75 | A predicate, no contract: the source's six-way conjunction. `Card.ResetDisabledIffInitial` states that in a reachable state it holds exactly in the initial state. |
| JsNumber.IsNaN | src/components/Card.jsx:20 | A predicate, no contract: `isNaN` on a string is whether the model's `ToNumber` of it is NaN. `JsNumber.ToNumber` (blank text is 0, so never NaN), `JsNumber.NumeralThenText` and `JsNumber.NoLeadingNumber` state what it gives on blank text, on a numeral followed by non-blank other text, and on text with no leading number. |
| JsNumber.OrZero | src/components/Card.jsx:11-13 | The or-zero fallback of lines 11-13: the result is 0 exactly when `n` is falsy (NaN or zero); otherwise it is `n` itself. |
| Card.ValidationRules | src/components/Card.jsx:16-22 | Rule order, stated per message. The negative message appears exactly when the text contains a minus sign. The zero message appears exactly when the text has no minus and `parseFloat` reads 0. The not-a-number message appears exactly when both earlier rules pass and `isNaN` holds. |
| Card.ValidMeansBlankOrPositive | src/components/Card.jsx:16-22 | A field is accepted if and only if its text is blank, or it has no minus sign and is, as a whole, a finite decimal literal denoting a positive number (the model's `ToNumber`). |
| Card.BlankValidates | src/components/Card.jsx:17-21 | Empty or all-white-space text is accepted, whatever the field. |
| Card.NonBlankValidation | src/components/Card.jsx:17-21 | Non-blank text is accepted exactly when it has no minus sign and the model's `ToNumber` (finite decimal literals only) reads it as a positive number. |
| Card.Errors.Set | src/components/Card.jsx:52 | `{...prev, [field]: message}` stores the message in that field's slot and leaves the other two slots unchanged. |
| Card.Compute | src/components/Card.jsx:25-42 | Behind the guard (any error, bill <= 0 or people <= 0), both amounts are zero. Otherwise the tip per person times the people equals bill × tip% / 100. The total per person times the people equals the bill plus that tip. The total per person equals the bill share plus the tip share. With a non-negative tip, the tip is non-negative and the total is positive. |
| Card.InputChanged | src/components/Card.jsx:44-53 | Only the named field's text changes, to the typed value. Only that field's error changes, to its validation. The preset is cleared exactly when the field is the custom tip. |
| Card.WithInput | src/components/Card.jsx:44-53 | The same frame as `InputChanged`, for any message put in the field's error slot. |
| Card.InputChangedConsistent | src/components/Card.jsx:44-53 | Typing in any field keeps a reachable state reachable: every error is the validation of its field, and a preset excludes custom text. |
| Card.TipSelected | src/components/Card.jsx:55-59 | Stores the preset and clears the custom tip and its error. Bill, people and their errors are unchanged. The effective tip percentage becomes the preset. A preset from `tipOptions` keeps the state reachable. |
| Card.ResetDisabledIffInitial | src/components/Card.jsx:69-75 | In a reachable state, reset is disabled if and only if the state is the initial one. |
| Card.CardState.constructor | src/components/Card.jsx:5-9 | The `useState` initial values; the initial state is reachable. |
| Card.CardState.Displayed | src/components/Card.jsx:25-42 | The displayed amounts are zero whenever the guard blocks on the current cells. |
| Card.CardState.IsResetDisabled | src/components/Card.jsx:69-75 | In a valid state, the button is disabled exactly in the initial state. |
| Card.CardState.HandleInputChange | src/components/Card.jsx:44-53 | The new state is `InputChanged` of the old one, so nothing else changes; the invariant is kept. |
| Card.CardState.Store | src/components/Card.jsx:46-52 | The three conditional setters and the error update leave exactly the `WithInput` state. |
| Card.CardState.HandleTipSelect | src/components/Card.jsx:55-59 | Called only with a member of `tipOptions`, as the preset buttons do. The new state is `TipSelected` of the old one, and the invariant is kept. |
| Card.CardState.HandleReset | src/components/Card.jsx:61-67 | From any state, the result is the initial state and is valid. A second reset therefore changes nothing. |
| JsNumber.ParseFloat | src/components/Card.jsx:11 | Blank text gives NaN. Text without a minus sign never gives a negative number. |
| JsNumber.ParseInt | src/components/Card.jsx:12 | Blank text gives NaN. Text without a minus sign never gives a negative number. Every result is a whole number. |
| JsNumber.ToNumber | src/components/Card.jsx:20 | Blank text is 0. Text without a minus sign never gives a negative number. |
| JsNumber.ParseFloatAgreesWithNumber | src/components/Card.jsx:19-20 | On non-blank text that the model's `ToNumber` (finite decimal literals) accepts, `parseFloat` reads the same number: trailing white space cannot extend a literal. |
| JsNumber.DigitsParse | src/components/Card.jsx:11-20 | `parseFloat`, `parseInt` and `Number` all read a plain run of decimal digits as its positional value. |
| JsNumber.FractionParse | src/components/Card.jsx:11-20 | On `ds.fs`, `parseFloat` and `Number` read the decimal value. `parseInt` stops at the point and reads `ds` alone. |
| JsNumber.NumeralThenText | src/components/Card.jsx:19-20 | A numeral followed by non-blank text that starts with a character the numeral cannot absorb, with or without trailing white space ("12abc", "12abc "): `parseFloat` reads the numeral, and `Number` is NaN. |
| JsNumber.NoLeadingNumber | src/components/Card.jsx:19-20 | Text that starts with a character no finite decimal literal can start with (no digit, point, sign, exponent marker or white space), whatever follows ("abc", "abc "), is NaN for both model parsers. |
| CardProperties.CleanFieldIsPositive | src/components/Card.jsx:11-21 | An accepted, non-blank field reads through `parseFloat` as a positive number. |
| CardProperties.TipPercentageNonNegative | src/components/Card.jsx:13 | In a reachable state with no custom-tip error, the effective tip percentage (preset, else parsed custom tip, else 0) is non-negative. |
| CardProperties.DerivedNonZeroIff | src/components/Card.jsx:25-42 | In a reachable state, the amounts are non-zero if and only if no field shows an error, the bill is not blank and `parseInt` reads a positive head count. |
| CardProperties.InvalidFieldBlocks | src/components/Card.jsx:26-33 | In a reachable state, a field whose text fails validation forces both amounts to zero. |
| CardProperties.AtMostOnePresetSelected | src/components/Card.jsx:104-110 | At most one preset button is marked as selected. |
| CardProperties.InitialIsDisabled | src/components/Card.jsx:69-75 | The initial state is reachable and has reset disabled. |
| CardProperties.MinusDecidesFirst | src/components/Card.jsx:18 | "-0", "-abc", "1e-3" and "1-2" all give the negative message. |
| CardProperties.NotANumberValidation | src/components/Card.jsx:19-20 | For text without a minus sign that is NaN as a whole: the zero message when its leading number is 0, the not-a-number message otherwise. |
| CardProperties.LeadingNumberValidation | src/components/Card.jsx:17-20 | The same, given the whole number that `parseFloat` reads from the text's head. |
| CardProperties.NumeralValidation | src/components/Card.jsx:16-22 | A plain numeral is accepted unless it denotes zero, in which case it gets the zero message. |
| CardProperties.ZeroIsZero | src/components/Card.jsx:19 | "0" gets the zero message. |
| CardProperties.NumeralThenTextValidation | src/components/Card.jsx:19-20 | A numeral followed by minus-free, non-blank text that starts with a character the numeral cannot absorb, such as "0abc", "12abc" or "12abc ": the zero message when the numeral is 0, because the zero rule comes first; the not-a-number message otherwise. |
| CardProperties.NoLeadingNumberValidation | src/components/Card.jsx:19-20 | Minus-free text that starts with a character no number can start with, such as "abc" or "abc ", gets the not-a-number message. |
| CardProperties.LettersAreNotANumber | src/components/Card.jsx:20 | "abc" gets the not-a-number message. |
| CardProperties.PositiveNumberValidation | src/components/Card.jsx:16-22 | Text without a minus sign that the model's `ToNumber` (finite decimal literals) reads as positive is accepted. |
| CardProperties.FiftyAndFive | src/components/Card.jsx:11-20 | "50" and "5" are accepted. `parseFloat("50")` is 50 and `parseInt("5")` is 5. |
| CardProperties.ReachFiftyAmongFive | src/components/Card.jsx:44-59 | Typing bill "50", then people "5", then choosing the 10% preset leaves that form with no errors. |
| CardProperties.FiftyAmongFiveAtTenPercent | src/components/Card.jsx:25-42 | That form is reachable. Its amounts are a tip of 1.00 and a total of 11.00 per person. |
| CardProperties.FractionalHeadCount | src/components/Card.jsx:12-21 | A positive head count `ds.fs` is accepted, yet `parseInt` reads only `ds`. |
| CardProperties.HeadCountBelowOneBlocksSilently | src/components/Card.jsx:12-33 | A head count such as "0.5" passes validation, so the head-count field shows no error, but the amounts stay zero. |

## Left out

- JSX markup, styling, the output formatting with `toFixed(2)`, and `TipButton`. `TipButton` only forwards its value, which `HandleTipSelect`'s precondition captures: it is called with a member of `tipOptions`.
- IEEE-754 doubles: the arithmetic is exact over `real`, with no rounding, overflow to `Infinity`, or loss of precision in long digit strings.
- ValidateInput: text that is `Infinity`, with an optional `+` sign and surrounding white space, gets the not-a-number message, where the source accepts it; a bill of `Infinity` then makes the source's amounts infinite (or NaN with a zero tip); this follows from the two parsers below.
- ParseFloat, ToNumber: the literal `Infinity` (with an optional sign) is not recognised. Such text reads as NaN here, where JavaScript reads it as infinite.
- ToNumber: the `0x`, `0o` and `0b` forms of `Number` are not recognised. The validation result does not change, because `parseFloat` reads such text as 0 and the zero rule comes first.
- ParseInt: the radix argument is not modelled, because the component never passes one. Digit runs long enough to lose precision are left out, like the rest of floating point.
- `useMemo` memoisation and React's batching of state updates. Each handler is modelled as one atomic step, and the derived amounts are recomputed from the state.
- The `name` argument of `validateInput`: the function ignores it.
