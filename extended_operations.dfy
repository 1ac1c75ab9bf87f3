/** The `Mod` part, exported from the extension assembly under the symbol `%`. */
module ExtendedOperations {
  import opened CSharpInt

  /** The `Symbol` value of Mod's export metadata. */
  const Symbol: char := '%'

  /**
   * `Mod.Operate`: C# `left % right` on `int`. A zero divisor throws
   * DivideByZeroException; `int.MinValue % -1` throws OverflowException,
   * as the x86 and x64 runtimes do.
   */
  function Operate(left: int32, right: int32): (r: Checked)
    ensures r.Throws? <==> right == 0 || (left == MinValue && right == -1)
    ensures r == Throws(DivideByZeroException) <==> right == 0
    ensures r.Returns? ==> r.value == left - Quotient(left, right) * right
  {
    if right == 0 then
      Throws(DivideByZeroException)
    else if left == MinValue && right == -1 then
      Throws(OverflowException)
    else
      RemainderOfMagnitudes(left, right);
      Returns(Remainder(left, right))
  }

  /** The remainder is smaller in magnitude than the divisor. */
  lemma OperateBounded(left: int32, right: int32)
    requires Operate(left, right).Returns?
    ensures Abs(Operate(left, right).value) < Abs(right)
  {
    RemainderOfMagnitudes(left, right);
  }

  /** The remainder is zero or has the sign of the dividend, never that of the divisor alone. */
  lemma OperateSign(left: int32, right: int32)
    requires Operate(left, right).Returns?
    ensures var m := Operate(left, right).value; m == 0 || ((m < 0) <==> (left < 0))
  {
    RemainderOfMagnitudes(left, right);
  }

  /** A non-negative dividend smaller than a positive divisor is its own remainder. */
  lemma OperateSmallDividend(left: int32, right: int32)
    requires 0 <= left < right
    ensures Operate(left, right) == Returns(left)
  {
    RemainderOfMagnitudes(left, right);
    SmallModulo(left, right);
  }

  /** Worked values: the sign follows the dividend. */
  lemma OperateExamples()
    ensures Operate(10, 3) == Returns(1)
    ensures Operate(-7, 3) == Returns(-1)
    ensures Operate(7, -3) == Returns(1)
    ensures Operate(-7, -3) == Returns(-1)
    ensures Operate(7, 0) == Throws(DivideByZeroException)
  {
    RemainderOfMagnitudes(10, 3);
    RemainderOfMagnitudes(-7, 3);
    RemainderOfMagnitudes(7, -3);
    RemainderOfMagnitudes(-7, -3);
  }
}
