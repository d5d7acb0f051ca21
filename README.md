# Numbers-only input directive, modelled in Dafny

This project models `NumbersOnlyDirective`, the Angular attribute directive
(`appNumbersOnly`) that restricts a text input to numeric text. The directive has
three parts, and the model keeps each in the form it has in the source:

- **Initialisation (`ngOnInit`)** updates the directive in place. It may write the
  element's `maxLength` attribute, and it may push `-` onto the list of always-allowed
  keys. It is modelled as the class `NumbersOnly.NumbersOnlyDirective` with the method
  `Init`, whose `modifies` clause names exactly those two fields.
- **The keydown decision (`onKeyDown`)** is the pure function `NumbersOnly.SuppressKey`.
  It returns `true` exactly when the handler calls `preventDefault()`. First it lets
  the exempt keys through. Then it appends the key to the current value, whatever
  the caret position. Then it runs two independent branches, and either one can
  suppress the key:
  - the pattern-only branch, guarded by JavaScript falsiness of both bounds;
  - the pattern-and-inclusive-range branch, guarded by both bounds being defined.
- **The paste decision (`blockPaste`)** is the pure function `NumbersOnly.SuppressPaste`.
  A paste is blocked when both conditions hold:
  - the text has a character outside `[0-9.?]`;
  - the text fails the pattern.

The class also has the methods `OnKeyDown` and `BlockPaste`. They follow the
handlers' statement order and are proved equal to the two functions. They have no
`modifies` clause, so they write no field.

The default pattern `^-?[0-9]+(\.[0-9]*){0,1}$` has a hand-written recursive
recognizer, `DecimalPattern.Matches`. It is proved equal to a declarative reading of
the regular expression (`DecimalPattern.RegexShape`). `DecimalPattern.Value` gives
the number that `Number()` returns for the empty string (0) and for every string of
that language. It returns the exact decimal value as a `real`. Every other string
has no value (NaN).

A caller-supplied `regex` input is represented as `Custom(accepts)`, a string
predicate. The bounds are `Option<real>`: `None` is `undefined`, and a bound is falsy
when it is `None` or `0`.

The code's behaviour is easy to misread in several places. The model keeps each one,
and the lemmas pin it down. Line numbers refer to
`src/app/shared/directives/numbers-only.directive.ts`.
- Cmd+C and Cmd+A are not exempt, and neither are upper-case shortcut letters (:54-60).
- The paste character class `[^\d\.?\d]` also admits `?` (:97).
- `!this.MIN && !this.MAX` treats a bound of `0` like an absent one (:67).
- A single bound turns all keystroke filtering off when it is non-zero. Then
  neither the falsiness guard (:67) nor the `!== undefined` guard (:78) holds.
- When both bounds are `0`, both branches run (:67, :78).

## Model

| member | source | states |
|---|---|---|
| `DecimalPattern.IntTailIff` | src/app/shared/directives/numbers-only.directive.ts:14 | the recognizer's tail state accepts exactly a run of digits followed by nothing or by `.` and digits |
| `DecimalPattern.Matches` | src/app/shared/directives/numbers-only.directive.ts:14 | the default pattern: an accepted string has a digit right after the optional `-`, and after the sign holds only digits and `.` |
| `DecimalPattern.MatchesIffRegexShape` | src/app/shared/directives/numbers-only.directive.ts:14 | the recognizer accepts a string iff it is an optional `-`, one or more digits, then nothing or `.` and zero or more digits |
| `DecimalPattern.Value` | src/app/shared/directives/numbers-only.directive.ts:82-83 | `Number(next)` is a number exactly for the empty string and the strings of the default pattern (anything else is NaN); its value is never positive after a leading `-` and never negative without one |
| `DecimalPattern.ValueOfDecimal` | src/app/shared/directives/numbers-only.directive.ts:82-83 | a numeral `d.f` matches the pattern and converts to the digits of `d` and `f` as one integer divided by ten to the number of fraction digits |
| `DecimalPattern.DigitsValueConcat` | src/app/shared/directives/numbers-only.directive.ts:82-83 | the value of two digit runs written one after the other is the first shifted left by the second's length plus the second |
| `DecimalPattern.ValueOfDigits` | src/app/shared/directives/numbers-only.directive.ts:82-83 | a non-empty digit run matches the pattern and converts to its integer value |
| `DecimalPattern.ValueOfSingleDigit` | src/app/shared/directives/numbers-only.directive.ts:82-83 | a single digit converts to its own value |
| `DecimalPattern.ValueAppendDigit` | src/app/shared/directives/numbers-only.directive.ts:82-83 | typing one more digit after an integer multiplies its value by ten and adds the digit |
| `DecimalPattern.TrailingDotKeepsValue` | src/app/shared/directives/numbers-only.directive.ts:82-83 | an integer followed by `.` still matches and converts to the same value (`"5."` is 5) |
| `DecimalPattern.NegationFlipsValue` | src/app/shared/directives/numbers-only.directive.ts:82-83 | a leading `-` keeps a numeral in the language and negates its value |
| `DecimalPattern.ValueOf150` | src/app/shared/directives/numbers-only.directive.ts:82-83 | `"150"` converts to 150 |
| `DecimalPattern.ValueOfHalf` | src/app/shared/directives/numbers-only.directive.ts:82-83 | `"0.5"` converts to 0.5 |
| `DecimalPattern.ValueOf50` | src/app/shared/directives/numbers-only.directive.ts:82-83 | `"50"` converts to 50 |
| `DecimalPattern.LoneMinusIsNaN` | src/app/shared/directives/numbers-only.directive.ts:82-83 | a lone `"-"` converts to NaN, so it fails every range check |
| `NumbersOnly.SuppressKey` | src/app/shared/directives/numbers-only.directive.ts:50-92 | an exempt key (special key or listed shortcut) is never suppressed |
| `NumbersOnly.HasForeignCharIff` | src/app/shared/directives/numbers-only.directive.ts:97 | `/[^\d\.?\d]/` finds a match iff some character is not a digit, `.` or `?` |
| `NumbersOnly.SuppressPaste` | src/app/shared/directives/numbers-only.directive.ts:94-102 | a blocked paste always contains a character outside digits, `.` and `?` |
| `NumbersOnly.KeysAfterInit` | src/app/shared/directives/numbers-only.directive.ts:44-46 | initialisation keeps the old key list as a prefix and appends exactly one `-` when minus is allowed and nothing otherwise; `-` is present afterwards iff it was before or minus is allowed |
| `NumbersOnly.NumbersOnlyDirective.constructor` | src/app/shared/directives/numbers-only.directive.ts:14-34 | a bound directive holds its inputs and the ten initial special keys in source order |
| `NumbersOnly.NumbersOnlyDirective.Init` | src/app/shared/directives/numbers-only.directive.ts:36-47 | `maxLength` becomes `length` iff `length` is truthy and the element exists, else is unchanged; the key list gains `-` iff `canAllowMinus` |
| `NumbersOnly.NumbersOnlyDirective.OnKeyDown` | src/app/shared/directives/numbers-only.directive.ts:50-92 | the handler's statement sequence prevents the key exactly when `SuppressKey` says so, and writes no field |
| `NumbersOnly.NumbersOnlyDirective.BlockPaste` | src/app/shared/directives/numbers-only.directive.ts:94-102 | the handler prevents the paste exactly when `SuppressPaste` says so, and writes no field |
| `NumbersOnlyProperties.ExemptKeysNeverSuppressed` | src/app/shared/directives/numbers-only.directive.ts:53-63 | special keys, Ctrl/Cmd+V, Ctrl/Cmd+X, Ctrl+C and Ctrl+A are never suppressed under any configuration or field value |
| `NumbersOnlyProperties.NonExemptShortcutsAreFiltered` | src/app/shared/directives/numbers-only.directive.ts:53-63 | Cmd+C, Cmd+A and upper-case V/X/C/A are decided exactly as the same key without modifiers |
| `NumbersOnlyProperties.CmdCopySuppressed` | src/app/shared/directives/numbers-only.directive.ts:53-73 | Cmd+C in a field holding `"1"` is suppressed under the default configuration |
| `NumbersOnlyProperties.NoBoundsMeansPatternOnly` | src/app/shared/directives/numbers-only.directive.ts:67-73 | with both bounds falsy and not both defined, a non-exempt key is suppressed iff `current + key` fails the pattern |
| `NumbersOnlyProperties.TypingDecimalSuppressesNothing` | src/app/shared/directives/numbers-only.directive.ts:67-73 | typing `1`, `2`, `.`, `5` in turn suppresses nothing |
| `NumbersOnlyProperties.LetterAfterDigitSuppressed` | src/app/shared/directives/numbers-only.directive.ts:67-73 | `a` typed after `"1"` is suppressed |
| `NumbersOnlyProperties.MinusIntoEmptyField` | src/app/shared/directives/numbers-only.directive.ts:44-46 | `-` into an empty field with no bounds is suppressed iff initialisation did not allow minus |
| `NumbersOnlyProperties.BothBoundsMeansPatternAndRange` | src/app/shared/directives/numbers-only.directive.ts:78-91 | with both bounds defined, a non-exempt key is allowed iff `current + key` matches the pattern and its value lies in [min, max], also when both bounds are 0 |
| `NumbersOnlyProperties.NonMatchingSuppressedUnderBounds` | src/app/shared/directives/numbers-only.directive.ts:78-91 | with both bounds defined, a `next` that fails the pattern is suppressed whatever its value |
| `NumbersOnlyProperties.RangeExamples` | src/app/shared/directives/numbers-only.directive.ts:78-91 | with min 0 and max 100, `"15"` then `0` is suppressed and `"5"` then `0` is allowed |
| `NumbersOnlyProperties.FractionInRangeAllowed` | src/app/shared/directives/numbers-only.directive.ts:78-91 | with min 0.1 and max 1, typing `5` after `"0."` is allowed because `"0.5"` is 0.5 |
| `NumbersOnlyProperties.BothZeroBounds` | src/app/shared/directives/numbers-only.directive.ts:67-91 | with both bounds 0, typing `0` into an empty field is allowed and typing `1` is suppressed |
| `NumbersOnlyProperties.SingleTruthyBoundDisablesFiltering` | src/app/shared/directives/numbers-only.directive.ts:67-78 | when exactly one bound is defined and non-zero, no key is ever suppressed |
| `NumbersOnlyProperties.PasteBlockedIff` | src/app/shared/directives/numbers-only.directive.ts:96-101 | a paste is blocked iff some character is outside digits, `.` and `?` and the text fails the pattern |
| `NumbersOnlyProperties.PasteOfClassCharsNeverBlocked` | src/app/shared/directives/numbers-only.directive.ts:96-101 | text made only of digits, `.` and `?` is never blocked, whatever the pattern |
| `NumbersOnlyProperties.PasteIgnoresKeysAndBounds` | src/app/shared/directives/numbers-only.directive.ts:94-102 | the paste decision depends on the pattern and the text only, not on the keys or the bounds |
| `NumbersOnlyProperties.PasteExamplesPass` | src/app/shared/directives/numbers-only.directive.ts:96-101 | pastes of `"12.34"`, `"1.2.3"`, `"??"`, `""` and `"-5"` pass |
| `NumbersOnlyProperties.PasteExampleBlocked` | src/app/shared/directives/numbers-only.directive.ts:96-101 | a paste of `"12a"` is blocked |
| `NumbersOnlyProperties.InitTwiceSameKeySet` | src/app/shared/directives/numbers-only.directive.ts:44-46 | a second initialisation leaves the set of special keys unchanged |
| `NumbersOnlyProperties.InitTwiceDuplicatesMinus` | src/app/shared/directives/numbers-only.directive.ts:44-46 | initialising twice with minus allowed leaves `-` in the list twice |
| `NumbersOnlyProperties.MinusExemptAfterInit` | src/app/shared/directives/numbers-only.directive.ts:44-63 | after initialisation `-` is exempt iff it was a special key already or minus is allowed |
| `NumbersOnlyProperties.InitFreshDirective` | src/app/shared/directives/numbers-only.directive.ts:36-47 | after binding and initialising, `-` is a special key iff minus is allowed, all initial keys remain, and `maxLength` is `length` iff it is truthy and the element exists |
| `NumbersOnlyProperties.HandlersAreRepeatable` | src/app/shared/directives/numbers-only.directive.ts:50-102 | repeated identical keystrokes and pastes give the same decision, and the directive's settings are unchanged |

## Left out

- Angular machinery is not modelled: `@Directive`, `@Input`, `@HostListener`, and the injection of `ElementRef` and `Renderer2`. The inputs are constructor parameters.
- The DOM write is not modelled. `setAttribute('maxLength', …)` is an assignment to the field `maxLengthAttr`, and whether `el.nativeElement` exists is the field `hasElement`.
- The browser's enforcement of `maxLength` is not modelled. Reading the field value and the clipboard is not modelled either: the current value and the pasted text are parameters.
- The JavaScript regular-expression engine is not modelled for a caller-supplied `regex`. Such a pattern is a pure predicate, so the `lastIndex` state of a sticky (`y`) regex is not modelled. With the global default pattern, `match` resets that state anyway.
- DecimalPattern.Value: does not give IEEE-754 `Number()` semantics. It gives exact decimal values, and only the empty string and strings of the default pattern are numbers. Strings like `" 1"`, `"1e3"`, `"0x10"`, `"+1"`, `".5"` and `"Infinity"` are NaN in the model. This can change a decision only under a custom pattern that accepts such a string, because a `next` that fails the pattern is suppressed whatever its value. Rounding of very long numerals is also not modelled.
- Full JavaScript truthiness is not modelled. Bounds are absent or real numbers, and `length` is absent or an integer. `null`, `""`, `NaN` and string-typed inputs are left out, and so is the string that `setAttribute` stores.
- The caret and selection position are not modelled, because the source ignores them and always appends the key. The lemmas about filtering assume a non-empty key, as browser key names are. `SuppressKey` itself also handles the empty key, as the source's `next &&` guard does.
