/** The calculator component's state as it is held: four variables that each
    button handler overwrites in place. Every method reads the fields as they
    were before the call and assigns the new values, and is proved to make
    exactly the transition of the like-named function of `CalculatorState`. */
module CalculatorEngine {
  import opened CalculatorState

  class Calculator {
    var display: string
    var previousValue: Option<string>
    var operator: Option<Op>
    var waitingForOperand: bool

    /** The host's number parsing, arithmetic and printing. */
    const arith: Arithmetic

    /** The four fields as one value. */
    function Snapshot(): State
      reads this
    {
      State(display, previousValue, operator, waitingForOperand)
    }

    /** The object invariant: both texts well formed, operand and operator
        stored together. */
    predicate Consistent()
      reads this
    {
      Valid(Snapshot()) && Paired(Snapshot())
    }

    constructor (arith: Arithmetic)
      ensures Snapshot() == Initial && this.arith == arith
      ensures Consistent()
    {
      display := "0";
      previousValue := None;
      operator := None;
      waitingForOperand := false;
      this.arith := arith;
      InitialIsConsistent();
    }

    method InputDigit(d: DigitChar)
      modifies this
      ensures Snapshot() == CalculatorState.InputDigit(old(Snapshot()), d)
      ensures old(Consistent()) ==> Consistent()
    {
      if waitingForOperand {
        display := [d];
        waitingForOperand := false;
      } else {
        display := if display == "0" then [d] else display + [d];
      }
    }

    method InputDecimal()
      modifies this
      ensures Snapshot() == CalculatorState.InputDecimal(old(Snapshot()))
      ensures old(Consistent()) ==> Consistent()
    {
      if waitingForOperand {
        display := "0.";
        waitingForOperand := false;
        return;
      }
      if '.' !in display {
        display := display + ".";
      }
    }

    method Clear()
      modifies this
      ensures Snapshot() == Initial
      ensures Consistent()
    {
      display := "0";
      previousValue := None;
      operator := None;
      waitingForOperand := false;
      InitialIsConsistent();
    }

    method DeleteLast()
      modifies this
      ensures Snapshot() == CalculatorState.DeleteLast(old(Snapshot()))
      ensures old(Consistent()) ==> Consistent()
    {
      if |display| == 1 || (|display| == 2 && StartsWithMinus(display)) {
        display := "0";
      } else {
        display := DropLast(display);
      }
    }

    method ToggleSign()
      modifies this
      ensures Snapshot() == CalculatorState.ToggleSign(old(Snapshot()))
      ensures old(Consistent()) ==> Consistent()
    {
      display := if StartsWithMinus(display) then display[1..] else "-" + display;
    }

    method InputPercent()
      modifies this
      ensures Snapshot() == CalculatorState.InputPercent(old(Snapshot()), arith)
      ensures old(Consistent()) ==> Consistent()
    {
      display := arith.percent(display);
    }

    method PerformOperation(nextOperator: Option<Op>)
      modifies this
      ensures Snapshot() == CalculatorState.PerformOperation(old(Snapshot()), nextOperator, arith)
      ensures waitingForOperand && operator == nextOperator && previousValue.Some?
      ensures old(Consistent()) && nextOperator.Some? ==> Consistent()
    {
      if previousValue.None? {
        previousValue := Some(display);
      } else if operator.Some? {
        var result := arith.evaluate(operator.value, previousValue.value, display);
        display := result;
        previousValue := Some(result);
      }
      waitingForOperand := true;
      operator := nextOperator;
    }

    method Calculate()
      modifies this
      ensures Snapshot() == CalculatorState.Calculate(old(Snapshot()), arith)
      ensures old(Consistent()) ==> Consistent()
    {
      if operator.None? || previousValue.None? {
        return;
      }
      var result := arith.evaluate(operator.value, previousValue.value, display);
      display := result;
      previousValue := None;
      operator := None;
      waitingForOperand := true;
    }
  }

  /** The widget driven by the buttons: each press calls the matching
      handler on the calculator's fields. */
  method Click(c: Calculator, k: Key)
    modifies c
    ensures c.Snapshot() == Press(old(c.Snapshot()), k, c.arith)
    ensures old(c.Consistent()) ==> c.Consistent()
  {
    match k
    case Digit(d) => c.InputDigit(d);
    case Decimal => c.InputDecimal();
    case AllClear => c.Clear();
    case Backspace => c.DeleteLast();
    case PlusMinus => c.ToggleSign();
    case Percent => c.InputPercent();
    case Operation(op) => c.PerformOperation(Some(op));
    case Equals => c.Calculate();
  }
}
