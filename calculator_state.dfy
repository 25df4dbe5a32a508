/** The calculator engine of the widget as a pure state machine.

    The widget keeps four pieces of state: the text on the display, the left
    operand of a pending operation, the pending operator and a flag saying that
    the next digit starts a fresh number. Every button handler reads the state
    as it was before the click and writes new values; here each handler is one
    function from the old `State` to the new one. The class in module
    `CalculatorEngine` performs the same updates field by field and is proved
    against these functions.

    Floating-point arithmetic is not modelled: parsing the display, applying
    the operator, rounding to ten places and printing the number again are one
    uninterpreted function per button kind, carried in an `Arithmetic` value. */
module CalculatorState {

  datatype Option<T> = None | Some(value: T)

  /** The four operator buttons. The source's `Operator` type is one of these
      or null, which is `Option<Op>` here. */
  datatype Op = Add | Subtract | Multiply | Divide

  /** The text a digit button passes to `inputDigit`: one of "0" to "9". */
  type DigitChar = c: char | '0' <= c <= '9' witness '0'

  /** Display text with its sign removed: the text after a single leading '-'. */
  function Magnitude(d: string): string {
    if StartsWithMinus(d) then d[1..] else d
  }

  predicate StartsWithMinus(d: string) {
    |d| > 0 && d[0] == '-'
  }

  /** Number of decimal points in a text. */
  function Dots(d: string): nat {
    multiset(d)['.']
  }

  /** The shape every display text has: an optional minus sign, then a
      non-empty body that does not itself start with a minus sign, and at most
      one decimal point in all. In particular it is never empty. */
  predicate WellFormed(d: string) {
    var m := Magnitude(d);
    |m| > 0 && m[0] != '-' && Dots(d) <= 1
  }

  /** What the number-to-text conversion of the host produces: digits, an
      optional sign and exponent, at most one decimal point, or the words for
      the infinities and not-a-number. All of them are well formed. */
  type NumberText = s: string | WellFormed(s) witness "0"

  /** The numeric part of the engine, left uninterpreted.
      `evaluate(op, left, right)` is the text of `op` applied to the numbers
      parsed from `left` and `right`, rounded to ten decimal places and printed
      again; `percent(d)` is the text of the number parsed from `d` divided
      by 100. */
  datatype Arithmetic = Arithmetic(
    evaluate: (Op, string, string) -> NumberText,
    percent: string -> NumberText)

  datatype State = State(
    display: string,
    previousValue: Option<string>,
    operator: Option<Op>,
    waitingForOperand: bool)

  /** The state the widget starts in, and the one `Clear` returns to. */
  const Initial: State := State("0", None, None, false)

  /** Both texts the engine holds are well formed. */
  predicate Valid(s: State) {
    WellFormed(s.display) &&
    (s.previousValue.Some? ==> WellFormed(s.previousValue.value))
  }

  /** A left operand is stored exactly when an operator is pending. */
  predicate Paired(s: State) {
    s.previousValue.None? <==> s.operator.None?
  }

  lemma InitialIsConsistent()
    ensures Valid(Initial) && Paired(Initial)
    ensures Initial.display == "0" && !Initial.waitingForOperand
  {
  }

  // ---------------------------------------------------------------------
  // Text helpers shared by the transitions

  lemma DotsAppend(a: string, b: string)
    ensures Dots(a + b) == Dots(a) + Dots(b)
  {
  }

  /** Appending characters other than '-' and '.' to a non-empty
      well-formed text keeps it well formed and keeps its sign. */
  lemma WellFormedAppend(d: string, c: char)
    requires WellFormed(d) && c != '.'
    ensures WellFormed(d + [c])
    ensures StartsWithMinus(d + [c]) == StartsWithMinus(d)
  {
  }

  // ---------------------------------------------------------------------
  // The handlers

  /** `inputDigit`: a digit either starts a new number (after an operator or
      a result, or over a lone "0") or is appended. The operand and operator
      are never touched. */
  function InputDigit(s: State, d: DigitChar): (r: State)
    ensures r.previousValue == s.previousValue && r.operator == s.operator
    ensures !r.waitingForOperand
    ensures s.waitingForOperand ==> r.display == [d]
    ensures !s.waitingForOperand && s.display == "0" ==> r.display == [d]
    ensures !s.waitingForOperand && s.display != "0" ==> r.display == s.display + [d]
    ensures Valid(s) ==> Valid(r)
  {
    if s.waitingForOperand then
      s.(display := [d], waitingForOperand := false)
    else
      var next := if s.display == "0" then [d] else s.display + [d];
      assert Valid(s) ==> WellFormed(next) by {
        if Valid(s) && s.display != "0" {
          WellFormedAppend(s.display, d);
        }
      }
      s.(display := next)
  }

  /** `inputDecimal`: starts "0." after an operator or a result, otherwise
      appends a decimal point unless the display already has one. The
      result always holds a decimal point and never a second one. */
  function InputDecimal(s: State): (r: State)
    ensures r.previousValue == s.previousValue && r.operator == s.operator
    ensures !r.waitingForOperand
    ensures '.' in r.display
    ensures s.waitingForOperand ==> r.display == "0."
    ensures !s.waitingForOperand && '.' in s.display ==> r == s
    ensures !s.waitingForOperand && '.' !in s.display ==> r.display == s.display + "."
    ensures Dots(s.display) <= 1 ==> Dots(r.display) == 1
    ensures Valid(s) ==> Valid(r)
  {
    if s.waitingForOperand then
      assert "0."[1] == '.';
      s.(display := "0.", waitingForOperand := false)
    else if '.' !in s.display then
      var next := s.display + ".";
      assert next[|s.display|] == '.';
      DotsAppend(s.display, ".");
      assert Valid(s) ==> WellFormed(next) by {
        if Valid(s) && StartsWithMinus(s.display) {
          assert next[1..] == s.display[1..] + ".";
        }
      }
      s.(display := next)
    else
      s
  }

  /** `clear`: back to the initial state, whatever the state was. */
  function Clear(s: State): (r: State)
    ensures r.display == "0" && r.previousValue.None? && r.operator.None?
    ensures !r.waitingForOperand
    ensures Valid(r) && Paired(r)
  {
    Initial
  }

  /** The source's `display.slice(0, -1)`: everything but the last character
      (and "" for ""). */
  function DropLast(d: string): string {
    if |d| == 0 then d else d[..|d| - 1]
  }

  /** Dropping the last character of a well-formed display longer than a
      sign and one character keeps it well formed. */
  lemma DropLastWellFormed(d: string)
    requires WellFormed(d)
    requires !(|d| == 1 || (|d| == 2 && StartsWithMinus(d)))
    ensures WellFormed(DropLast(d))
    ensures DropLast(d) + [d[|d| - 1]] == d
  {
    var next := d[..|d| - 1];
    assert d == next + [d[|d| - 1]];
    DotsAppend(next, [d[|d| - 1]]);
    if StartsWithMinus(d) {
      assert next[1..] == d[1..|d| - 1];
      assert next[1..][0] == d[1];
    }
  }

  /** `deleteLast`: removes the last character, except that a single
      character or a minus sign with one character becomes "0". The display
      is never emptied. */
  function DeleteLast(s: State): (r: State)
    ensures r.previousValue == s.previousValue && r.operator == s.operator
    ensures r.waitingForOperand == s.waitingForOperand
    ensures |s.display| > 0 ==> |r.display| > 0
    ensures |s.display| == 1 || (|s.display| == 2 && StartsWithMinus(s.display)) ==> r.display == "0"
    ensures r.display == "0" || r.display == DropLast(s.display)
    ensures !(|s.display| == 1 || (|s.display| == 2 && StartsWithMinus(s.display))) ==>
              r.display == DropLast(s.display)
    ensures r.display != "0" && |s.display| > 0 ==>
              r.display + [s.display[|s.display| - 1]] == s.display
    ensures Valid(s) ==> Valid(r)
  {
    var d := s.display;
    if |d| == 1 || (|d| == 2 && StartsWithMinus(d)) then
      s.(display := "0")
    else
      assert |d| > 0 ==> DropLast(d) + [d[|d| - 1]] == d;
      assert Valid(s) ==> WellFormed(DropLast(d)) by {
        if Valid(s) {
          DropLastWellFormed(d);
        }
      }
      s.(display := DropLast(d))
  }

  /** `toggleSign`: strips a leading minus sign or adds one. On a well-formed
      display the magnitude is kept and only the sign flips. */
  function ToggleSign(s: State): (r: State)
    ensures r.previousValue == s.previousValue && r.operator == s.operator
    ensures r.waitingForOperand == s.waitingForOperand
    ensures WellFormed(s.display) ==>
              Magnitude(r.display) == Magnitude(s.display) &&
              StartsWithMinus(r.display) == !StartsWithMinus(s.display)
    ensures Valid(s) ==> Valid(r)
  {
    var d := s.display;
    if StartsWithMinus(d) then
      assert d == [d[0]] + d[1..];
      DotsAppend([d[0]], d[1..]);
      s.(display := d[1..])
    else
      var next := "-" + d;
      assert next[1..] == d;
      DotsAppend("-", d);
      s.(display := next)
  }

  /** `inputPercent`: the display becomes the text of its value divided by
      100; nothing else changes. */
  function InputPercent(s: State, arith: Arithmetic): (r: State)
    ensures r.previousValue == s.previousValue && r.operator == s.operator
    ensures r.waitingForOperand == s.waitingForOperand
    ensures r.display == arith.percent(s.display)
    ensures Valid(s) ==> Valid(r)
  {
    s.(display := arith.percent(s.display))
  }

  /** `performOperation(next)`: the first operator of a chain stores the
      display as the left operand; with an operand and an operator pending
      it settles the pending operation against the display and keeps the
      result as both display and new left operand. Either way an operand is
      pending afterwards, `next` is the pending operator, and the next digit
      starts a fresh number. */
  function PerformOperation(s: State, next: Option<Op>, arith: Arithmetic): (r: State)
    ensures r.waitingForOperand && r.operator == next
    ensures r.previousValue.Some?
    ensures s.previousValue.None? ==> r.display == s.display && r.previousValue == Some(s.display)
    ensures s.previousValue.Some? && s.operator.Some? ==>
              r.display == arith.evaluate(s.operator.value, s.previousValue.value, s.display) &&
              r.previousValue == Some(r.display)
    ensures s.previousValue.Some? && s.operator.None? ==>
              r.display == s.display && r.previousValue == s.previousValue
    ensures next.Some? ==> Paired(r)
    ensures Valid(s) ==> Valid(r)
  {
    match (s.previousValue, s.operator)
    case (None, _) =>
      s.(previousValue := Some(s.display), waitingForOperand := true, operator := next)
    case (Some(left), Some(op)) =>
      var result := arith.evaluate(op, left, s.display);
      State(result, Some(result), next, true)
    case (Some(_), None) =>
      s.(waitingForOperand := true, operator := next)
  }

  /** `calculate` (the "=" button): does nothing unless an operand and an
      operator are pending; otherwise the display becomes the result and the
      chain ends. */
  function Calculate(s: State, arith: Arithmetic): (r: State)
    ensures s.operator.None? || s.previousValue.None? ==> r == s
    ensures s.operator.Some? && s.previousValue.Some? ==>
              r.display == arith.evaluate(s.operator.value, s.previousValue.value, s.display) &&
              r.previousValue.None? && r.operator.None? && r.waitingForOperand
    ensures Paired(s) ==> Paired(r)
    ensures Valid(s) ==> Valid(r)
  {
    match (s.previousValue, s.operator)
    case (Some(left), Some(op)) =>
      State(arith.evaluate(op, left, s.display), None, None, true)
    case _ =>
      s
  }

  // ---------------------------------------------------------------------
  // Properties of single handlers

  /** Toggling the sign twice gives back the display exactly when the display
      does not start with two minus signs; well-formed displays never do. */
  lemma ToggleSignInvolution(s: State)
    ensures ToggleSign(ToggleSign(s)) == s <==>
              !(|s.display| >= 2 && s.display[0] == '-' && s.display[1] == '-')
    ensures WellFormed(s.display) ==> ToggleSign(ToggleSign(s)) == s
  {
  }

  /** A second decimal point press changes nothing. */
  lemma InputDecimalIdempotent(s: State)
    ensures InputDecimal(InputDecimal(s)) == InputDecimal(s)
  {
  }

  /** Clearing forgets everything: the result does not depend on the state. */
  lemma ClearForgetsState(s: State, t: State)
    ensures Clear(s) == Clear(t) == Initial
  {
  }

  // ---------------------------------------------------------------------
  // Button sequences

  /** One press of a button of the widget. Operator buttons always pass one
      of the four operators. */
  datatype Key =
    | Digit(d: DigitChar)
    | Decimal
    | AllClear
    | Backspace
    | PlusMinus
    | Percent
    | Operation(op: Op)
    | Equals

  function Press(s: State, k: Key, arith: Arithmetic): (r: State)
    ensures Valid(s) ==> Valid(r)
    ensures Paired(s) ==> Paired(r)
  {
    match k
    case Digit(d) => InputDigit(s, d)
    case Decimal => InputDecimal(s)
    case AllClear => Clear(s)
    case Backspace => DeleteLast(s)
    case PlusMinus => ToggleSign(s)
    case Percent => InputPercent(s, arith)
    case Operation(op) => PerformOperation(s, Some(op), arith)
    case Equals => Calculate(s, arith)
  }

  /** The state after pressing `keys` in order, one handler run to completion
      after the other. */
  function Run(s: State, keys: seq<Key>, arith: Arithmetic): State
    decreases |keys|
  {
    if keys == [] then s else Run(Press(s, keys[0], arith), keys[1..], arith)
  }

  /** Pressing buttons in any order keeps both texts well formed: the display
      is never empty and never holds a second decimal point. */
  lemma {:induction false} RunPreservesValid(s: State, keys: seq<Key>, arith: Arithmetic)
    requires Valid(s)
    ensures Valid(Run(s, keys, arith))
    decreases |keys|
  {
    if keys != [] {
      RunPreservesValid(Press(s, keys[0], arith), keys[1..], arith);
    }
  }

  /** Pressing buttons in any order keeps the left operand and the operator
      paired: one is stored exactly when the other is. */
  lemma {:induction false} RunPreservesPaired(s: State, keys: seq<Key>, arith: Arithmetic)
    requires Paired(s)
    ensures Paired(Run(s, keys, arith))
    decreases |keys|
  {
    if keys != [] {
      RunPreservesPaired(Press(s, keys[0], arith), keys[1..], arith);
    }
  }

  /** Running two sequences one after the other is running their
      concatenation. */
  lemma {:induction false} RunAppend(s: State, a: seq<Key>, b: seq<Key>, arith: Arithmetic)
    ensures Run(s, a + b, arith) == Run(Run(s, a, arith), b, arith)
    decreases |a|
  {
    if a != [] {
      assert (a + b)[0] == a[0];
      assert (a + b)[1..] == a[1..] + b;
      RunAppend(Press(s, a[0], arith), a[1..], b, arith);
    } else {
      assert a + b == b;
    }
  }

  /** Every state the widget can reach from its initial state is consistent. */
  lemma ReachableIsConsistent(keys: seq<Key>, arith: Arithmetic)
    ensures Valid(Run(Initial, keys, arith)) && Paired(Run(Initial, keys, arith))
    ensures |Run(Initial, keys, arith).display| > 0
    ensures Dots(Run(Initial, keys, arith).display) <= 1
  {
    InitialIsConsistent();
    RunPreservesValid(Initial, keys, arith);
    RunPreservesPaired(Initial, keys, arith);
  }

  // ---------------------------------------------------------------------
  // Chains of operations

  /** Pressing one key and then the rest is running the whole sequence. */
  lemma RunCons(s: State, k: Key, rest: seq<Key>, arith: Arithmetic)
    ensures Run(s, [k] + rest, arith) == Run(Press(s, k, arith), rest, arith)
  {
  }

  /** Three presses in a row. */
  lemma RunThree(s: State, k1: Key, k2: Key, k3: Key, arith: Arithmetic)
    ensures Run(s, [k1, k2, k3], arith) == Press(Press(Press(s, k1, arith), k2, arith), k3, arith)
  {
    var s1 := Press(s, k1, arith);
    var s2 := Press(s1, k2, arith);
    RunCons(s2, k3, [], arith);
    RunCons(s1, k2, [k3], arith);
    RunCons(s, k1, [k2, k3], arith);
    assert [k1] + [k2, k3] == [k1, k2, k3];
    assert [k2] + [k3] == [k2, k3];
  }

  /** The first three presses of x op y: the operand is stored, the
      operator is pending and y is on the display. */
  lemma EnterOperation(x: DigitChar, y: DigitChar, op: Op, arith: Arithmetic)
    ensures Run(Initial, [Digit(x), Operation(op), Digit(y)], arith)
              == State([y], Some([x]), Some(op), false)
  {
    var s1 := State([x], None, None, false);
    var s2 := State([x], Some([x]), Some(op), true);
    assert Press(Initial, Digit(x), arith) == s1;
    assert Press(s1, Operation(op), arith) == s2;
    RunThree(Initial, Digit(x), Operation(op), Digit(y), arith);
  }

  /** With an operation pending, another operator, a digit and "=" settle the
      pending operation first and apply the new operator to its result. */
  lemma SettleThenApply(s: State, z: DigitChar, second: Op, arith: Arithmetic)
    requires s.previousValue.Some? && s.operator.Some?
    ensures
      var settled := arith.evaluate(s.operator.value, s.previousValue.value, s.display);
      Run(s, [Operation(second), Digit(z), Equals], arith)
        == State(arith.evaluate(second, settled, [z]), None, None, true)
  {
    var settled := arith.evaluate(s.operator.value, s.previousValue.value, s.display);
    var s4 := State(settled, Some(settled), Some(second), true);
    assert Press(s, Operation(second), arith) == s4;
    assert Press(s4, Digit(z), arith) == State([z], Some(settled), Some(second), false);
    RunThree(s, Operation(second), Digit(z), Equals, arith);
  }

  /** Chaining is lazy: in x + y + z = (for any digits and operators) the
      first operator only stores x, the second settles x + y and keeps it
      pending, and "=" applies the second operator to that result and z. */
  lemma ChainingIsLazy(x: DigitChar, y: DigitChar, z: DigitChar, first: Op, second: Op, arith: Arithmetic)
    ensures
      var settled := arith.evaluate(first, [x], [y]);
      Run(Initial, [Digit(x), Operation(first), Digit(y), Operation(second), Digit(z), Equals], arith)
        == State(arith.evaluate(second, settled, [z]), None, None, true)
  {
    var head := [Digit(x), Operation(first), Digit(y)];
    var tail := [Operation(second), Digit(z), Equals];
    EnterOperation(x, y, first, arith);
    SettleThenApply(State([y], Some([x]), Some(first), false), z, second, arith);
    RunAppend(Initial, head, tail, arith);
    assert head + tail == [Digit(x), Operation(first), Digit(y), Operation(second), Digit(z), Equals];
  }

  /** x op y = shows the result of the operator on the two digits, for
      example 7 ÷ 2 = shows the quotient of 7 and 2. */
  lemma SingleOperation(x: DigitChar, y: DigitChar, op: Op, arith: Arithmetic)
    ensures Run(Initial, [Digit(x), Operation(op), Digit(y), Equals], arith)
              == State(arith.evaluate(op, [x], [y]), None, None, true)
  {
    var s3 := State([y], Some([x]), Some(op), false);
    EnterOperation(x, y, op, arith);
    RunCons(s3, Equals, [], arith);
    RunAppend(Initial, [Digit(x), Operation(op), Digit(y)], [Equals], arith);
    assert [Digit(x), Operation(op), Digit(y)] + [Equals]
        == [Digit(x), Operation(op), Digit(y), Equals];
  }

  /** 5 0 % shows the text of 50 divided by 100. */
  lemma PercentExample(arith: Arithmetic)
    ensures Run(Initial, [Digit('5'), Digit('0'), Percent], arith)
              == State(arith.percent("50"), None, None, false)
  {
    var s1 := State("5", None, None, false);
    var s2 := State("50", None, None, false);
    assert Press(Initial, Digit('5'), arith) == s1;
    assert "5" + ['0'] == "50";
    assert Press(s1, Digit('0'), arith) == s2;
    RunThree(Initial, Digit('5'), Digit('0'), Percent, arith);
  }

  /** An operator pressed right after another one does not replace it: the
      pending operation is settled with the display, which at that point
      still shows the left operand, and only then is the new operator kept. */
  lemma OperatorAfterOperator(s: State, first: Op, second: Op, arith: Arithmetic)
    requires s.previousValue.None?
    ensures
      var r := PerformOperation(PerformOperation(s, Some(first), arith), Some(second), arith);
      r.display == arith.evaluate(first, s.display, s.display) &&
      r.previousValue == Some(r.display) && r.operator == Some(second) && r.waitingForOperand
  {
  }
}
