# Calculator widget engine, modelled in Dafny

This project models the logic of the on-screen calculator component of
`simple-calc`: the engine that turns button clicks into changes of four
pieces of state, and the formatter that turns the display text into what is
shown.

The engine state is four fields:

- `display`, the text being typed or the last result;
- `previousValue`, the left operand of a pending operation, or none;
- `operator`, the pending operator (`+`, `-`, `×`, `÷`), or none;
- `waitingForOperand`, which says the next digit starts a fresh number.

Each button handler reads the state as it was before the click and writes
new values.

- `calculator_state.dfy` (module `CalculatorState`) models every handler as a
  function from the old `State` to the new one. Its contract states what the
  handler promises and that it keeps the display invariant. The invariant:
  an optional minus sign, then a non-empty body that does not itself start
  with a minus sign, and at most one decimal point. The module also models
  button presses (`Key`, `Press`, `Run`) and proves that every reachable
  state satisfies the invariant. In every reachable state, a left operand is
  stored exactly when an operator is pending.
- `calculator_engine.dfy` (module `CalculatorEngine`) is the component as it
  holds its state: a class `Calculator` with the four fields. Its handler
  methods update the fields in place. Each method is proved to make exactly
  the transition of the function of the same name and to keep the object
  invariant `Consistent()`.
- `display_format.dfy` (module `DisplayFormat`) models `formatDisplay` and
  `getFontSize`. `Split` is the string split on one separator that the
  formatter uses. `GroupThousands` is a concrete Brazilian Portuguese digit
  grouping, used to show the outputs `1.234.567` and `1.234,5` that
  `pt-BR` grouping gives.

The numeric parts are calls into the host and are uninterpreted.
`Arithmetic.evaluate(op, left, right)` stands for parsing both texts,
applying `op`, rounding to ten places and printing the number again.
`Arithmetic.percent` stands for parsing, dividing by 100 and printing. The
`NumberFormat` functions stand for the parse test, exponential notation and
`pt-BR` locale printing. The results of `evaluate` and `percent` have type
`NumberText`, which is well-formed display text. This states an assumption
about the host's number-to-text conversion: it never produces an empty
text, a lone `-`, a leading `--` or two decimal points.

Three behaviours of the code are easy to misread, and the model follows the
code:

- Pressing a second operator right after the first does not just replace
  the pending operator. It settles the pending operation against the
  display, which still shows the left operand, and then stores the new
  operator. `OperatorAfterOperator` states this: `2 + ×` leaves `2 + 2`
  pending under `×`.
- `calculate` does nothing when either the operator or the left operand is
  missing, not only when the operator is missing.
- `toggleSign` is its own inverse only on text that does not start with two
  minus signs. Every well-formed display satisfies this.

## Model

| member | source | states |
|---|---|---|
| CalculatorState.InitialIsConsistent | src/components/Calculator.tsx:7-10 | the initial state (`"0"`, no operand, no operator, not waiting) satisfies the display invariant and the operand/operator pairing |
| CalculatorState.InputDigit | src/components/Calculator.tsx:12-19 | operand and operator unchanged and waiting cleared; when waiting the display becomes exactly the digit, a lone `"0"` is replaced, otherwise the digit is appended; the display invariant is kept |
| CalculatorState.InputDecimal | src/components/Calculator.tsx:21-30 | the display always holds a decimal point and never a second one; when waiting it becomes `"0."`; an existing point leaves the state unchanged; otherwise one `.` is appended; the display invariant is kept |
| CalculatorState.InputDecimalIdempotent | src/components/Calculator.tsx:21-30 | pressing the decimal point twice gives the same state as pressing it once |
| CalculatorState.Clear | src/components/Calculator.tsx:32-37 | from any state the result is display `"0"`, no operand, no operator, not waiting, and it satisfies both invariants |
| CalculatorState.ClearForgetsState | src/components/Calculator.tsx:32-37 | clearing gives the same state from any two states: the initial one |
| CalculatorState.DropLastWellFormed | src/components/Calculator.tsx:43 | removing the last character of a well-formed display longer than a sign and one character keeps it well formed and removes exactly that character |
| CalculatorState.DeleteLast | src/components/Calculator.tsx:39-45 | a one-character display, or a minus sign and one character, becomes `"0"`; otherwise exactly the last character is removed; a non-empty display never becomes empty; no other field changes |
| CalculatorState.ToggleSign | src/components/Calculator.tsx:47-49 | on a well-formed display the magnitude is kept and the sign flips; no other field changes; the display invariant is kept |
| CalculatorState.ToggleSignInvolution | src/components/Calculator.tsx:47-49 | toggling twice restores the state exactly when the display does not start with `--`, so always on well-formed displays |
| CalculatorState.InputPercent | src/components/Calculator.tsx:51-54 | the display becomes the host's text for the display's value divided by 100; nothing else changes |
| CalculatorState.PerformOperation | src/components/Calculator.tsx:56-89 | ends waiting, with `next` as operator and an operand stored; the first operator stores the display and leaves it unchanged; with operand and operator pending, display and operand both become the settled result; the pairing holds whenever `next` is an operator |
| CalculatorState.OperatorAfterOperator | src/components/Calculator.tsx:56-89 | an operator pressed right after another settles the first against the unchanged display and only then keeps the second |
| CalculatorState.Calculate | src/components/Calculator.tsx:91-120 | does nothing without a pending operator and operand; otherwise the display becomes the result, operand and operator are cleared and waiting is set; pairing and display invariant are kept |
| CalculatorState.Press | src/components/Calculator.tsx:169-248 | every button of the widget keeps the display invariant and the operand/operator pairing |
| CalculatorState.RunPreservesValid | src/components/Calculator.tsx:12-120 | any sequence of button presses keeps the display non-empty, with at most one decimal point and a single optional sign |
| CalculatorState.RunPreservesPaired | src/components/Calculator.tsx:56-120 | any sequence of button presses keeps "no operand stored iff no operator pending" |
| CalculatorState.RunAppend | src/components/Calculator.tsx:169-248 | pressing two sequences of buttons one after the other is pressing their concatenation |
| CalculatorState.ReachableIsConsistent | src/components/Calculator.tsx:7-120 | every state reachable from the initial one has a non-empty, well-formed display with at most one point, and pairs operand with operator |
| CalculatorState.EnterOperation | src/components/Calculator.tsx:12-89 | after digit `x`, an operator and digit `y` from the initial state, `x` is the stored operand, the operator is pending and `y` is on the display |
| CalculatorState.SettleThenApply | src/components/Calculator.tsx:56-120 | with an operation pending, an operator, a digit and `=` first settle the pending operation against the display, then apply the new operator to that result and the digit |
| CalculatorState.ChainingIsLazy | src/components/Calculator.tsx:56-120 | `x op1 y op2 z =` (for example `2 + 3 + 4 =`) shows `op2` applied to the result of `x op1 y` and `z`, with nothing left pending |
| CalculatorState.SingleOperation | src/components/Calculator.tsx:91-120 | `x op y =` (for example `7 ÷ 2 =`) shows `op` applied to the two digits, with nothing left pending |
| CalculatorState.PercentExample | src/components/Calculator.tsx:51-54 | `5 0 %` shows the text of 50 divided by 100 |
| CalculatorEngine.Calculator.constructor | src/components/Calculator.tsx:7-10 | the fields start as `"0"`, no operand, no operator, not waiting |
| CalculatorEngine.Calculator.InputDigit | src/components/Calculator.tsx:12-19 | the fields are updated in place exactly as `CalculatorState.InputDigit` prescribes, keeping the object invariant |
| CalculatorEngine.Calculator.InputDecimal | src/components/Calculator.tsx:21-30 | in-place update equal to `CalculatorState.InputDecimal`, keeping the object invariant |
| CalculatorEngine.Calculator.Clear | src/components/Calculator.tsx:32-37 | the fields are reset to the initial state and the object invariant holds |
| CalculatorEngine.Calculator.DeleteLast | src/components/Calculator.tsx:39-45 | in-place update equal to `CalculatorState.DeleteLast`, keeping the object invariant |
| CalculatorEngine.Calculator.ToggleSign | src/components/Calculator.tsx:47-49 | in-place update equal to `CalculatorState.ToggleSign`, keeping the object invariant |
| CalculatorEngine.Calculator.InputPercent | src/components/Calculator.tsx:51-54 | in-place update equal to `CalculatorState.InputPercent`, keeping the object invariant |
| CalculatorEngine.Calculator.PerformOperation | src/components/Calculator.tsx:56-89 | in-place update equal to `CalculatorState.PerformOperation`; afterwards waiting, operator `nextOperator`, operand stored; the object invariant is kept for a non-null operator |
| CalculatorEngine.Calculator.Calculate | src/components/Calculator.tsx:91-120 | in-place update equal to `CalculatorState.Calculate`, keeping the object invariant |
| CalculatorEngine.Click | src/components/Calculator.tsx:169-248 | a click on any button changes the fields as `CalculatorState.Press` prescribes and keeps the object invariant |
| DisplayFormat.SplitCount | src/components/Calculator.tsx:127 | splitting on `.` gives one piece more than there are separators |
| DisplayFormat.SplitPiecesLackSeparator | src/components/Calculator.tsx:127 | no piece of the split contains the separator |
| DisplayFormat.SplitJoins | src/components/Calculator.tsx:127 | joining the pieces with the separator gives the text back |
| DisplayFormat.SplitAtOnlySeparator | src/components/Calculator.tsx:127 | a text with exactly one separator splits into the text before it and the text after it |
| DisplayFormat.FormatDisplay | src/components/Calculator.tsx:122-138 | a non-number is returned unchanged, and so is a text ending in `.`; without a point the number is printed in exponential form when longer than 9 characters, in locale form otherwise; with one point, an integer part over 9 characters gives exponential form, otherwise the locale-printed integer part, a comma and the fraction text verbatim |
| DisplayFormat.FractionCopiedVerbatim | src/components/Calculator.tsx:132-137 | for an integer part of at most 9 characters and a non-empty fraction, the result is the locale-printed integer part, `,` and the fraction exactly as typed |
| DisplayFormat.GroupThousandsUngroups | src/components/Calculator.tsx:133-136 | thousands grouping only inserts separators, one per full group of three digits beyond the first digit |
| DisplayFormat.FormatDisplayGroups | src/components/Calculator.tsx:127-137 | with a host that groups integers as `GroupThousands` does, a number with a fraction and an integer part of at most 9 characters is shown as the grouped integer part, `,` and the fraction digits exactly as typed |
| DisplayFormat.GroupThousandsExamples | src/components/Calculator.tsx:133-136 | the grouping of `1234567` is `1.234.567` and that of `1234` is `1.234` |
| DisplayFormat.FontSizeFor | src/components/Calculator.tsx:140-145 | the largest size exactly for displays of at most 6 characters, the next exactly for 7 to 9, the next exactly for 10 to 12, the smallest exactly for displays longer than 12 |
| DisplayFormat.FontSizeNonIncreasing | src/components/Calculator.tsx:140-145 | a longer display never gets a larger font size |

## Left out

- Floating-point arithmetic: parsing the display, the four operations (division by zero included), rounding with `toFixed(10)` and printing the result. These are uninterpreted functions in `Arithmetic`. The model only assumes that they print well-formed number text.
- The `switch` defaults of `performOperation` and `calculate` (lines 78-79, 111-112) cannot be reached once an operator is known to be set. `Op` has exactly the four cases, so they have no counterpart.
- Locale and exponential printing (`toLocaleString("pt-BR")`, `toExponential(4)`) and the not-a-number test: they are uninterpreted functions in `NumberFormat`. `GroupThousands` is a concrete grouping of digit runs. It does not model signs, leading zeros or the number parsing that comes before printing.
- DisplayFormat.FormatDisplay: its contract says nothing about texts with two or more decimal points, for which the code prints only the piece between the first two points. The engine never produces such a display.
- The outputs `1.234.567` and `1.234,5` that `pt-BR` grouping gives are not proved on `FormatDisplay` with those literal texts. They follow from `FormatDisplayGroups`, its contract and `GroupThousandsExamples`, given a host that groups as `GroupThousands` does. On the literal texts the proof has to unfold `Split` character by character, which is too costly for the verifier.
- React's state hooks and update batching: each handler is one atomic transition. All JSX, styling and the pending-operation line of the display (lines 147-252) are left out, apart from the mapping from buttons to handlers in `Click` and `Press`.
- `getFontSize` reads the display from the component's closure. It is modelled as a function of the display text.
- `src/pages/Index.tsx` only places the component on the page. It is not part of this model.
