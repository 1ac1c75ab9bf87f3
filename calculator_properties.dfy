/** What `Calculate` promises, stated over its specification `Evaluate`. */
module CalculatorProperties {
  import opened Options
  import opened CSharpInt
  import opened Int32Text
  import opened SimpleCalculator

  /** The composition of the sample: the two built-in parts, then the extension. */
  function StandardRegistry(): (r: seq<Export>)
    ensures |r| == 3
    ensures r[0].part == Add && r[1].part == Subtract && r[2].part == Mod
    ensures r[0].symbol == '+' && r[1].symbol == '-' && r[2].symbol == '%'
    ensures DistinctSymbols(r)
  {
    [Exported(Add), Exported(Subtract), Exported(Mod)]
  }

  /**
   * When the symbols of a registry are distinct, the order `[ImportMany]`
   * supplies its entries in does not change the dispatch: any reordering
   * `p` of `q` answers the same.
   */
  lemma {:induction false} DispatchIgnoresOrder(p: seq<Export>, q: seq<Export>, c: Command)
    requires multiset(p) == multiset(q) && DistinctSymbols(q)
    ensures Dispatch(p, c) == Dispatch(q, c)
  {
    var k := FirstMatch(p, c.operator);
    var m := FirstMatch(q, c.operator);
    if k >= 0 {
      assert p[k] in multiset(q);
      var i :| 0 <= i < |q| && q[i] == p[k];
      assert m >= 0 && m <= i;
      assert m == i;
    } else {
      assert forall j :: 0 <= j < |q| ==> q[j] in multiset(p);
    }
  }

  /** So every command answers the same over any order of a registry with distinct symbols. */
  lemma {:induction false} EvaluateIgnoresOrder(input: string, p: seq<Export>, q: seq<Export>)
    requires multiset(p) == multiset(q) && DistinctSymbols(q)
    ensures Evaluate(input, p) == Evaluate(input, q)
  {
    match ParseCommand(input)
    case None =>
    case Some(c) => DispatchIgnoresOrder(p, q, c);
  }

  /** In particular for the three standard parts, whatever order composition supplies them in. */
  lemma StandardOrderIrrelevant(input: string, p: seq<Export>)
    requires multiset(p) == multiset(StandardRegistry())
    ensures Evaluate(input, p) == Evaluate(input, StandardRegistry())
  {
    EvaluateIgnoresOrder(input, p, StandardRegistry());
  }

  /** Text that is a sign and digits only is neither of the two error lines. */
  lemma FormatIsNoErrorLine(x: int)
    ensures Format(x) != CouldNotParse && Format(x) != NotFound
  {
    FormatAlphabet(x);
    assert !IsDigit(CouldNotParse[0]) && CouldNotParse[0] != '-';
    assert !IsDigit(NotFound[0]) && NotFound[0] != '-';
  }

  /** Without a non-digit there is no operator: the command does not parse and nothing is built. */
  lemma AllDigitsCannotParse(input: string, exports: seq<Export>)
    requires AllDigits(input)
    ensures Evaluate(input, exports) == Text(CouldNotParse)
    ensures Forced(input, exports) == -1
  {
    FirstNonDigitIsFirst(input);
  }

  /**
   * The answer is "Could not parse command." exactly when the command does
   * not split into two operands and an operator, whatever the registry holds.
   */
  lemma {:induction false} CouldNotParseExactly(input: string, exports: seq<Export>)
    ensures Evaluate(input, exports) == Text(CouldNotParse) <==> ParseCommand(input).None?
    ensures ParseCommand(input).None? ==> Forced(input, exports) == -1
  {
    match ParseCommand(input)
    case None =>
    case Some(c) =>
      var k := FirstMatch(exports, c.operator);
      if k >= 0 {
        var r := exports[k].part.Operate(c.left, c.right);
        if r.Returns? {
          FormatIsNoErrorLine(r.value);
        }
      }
  }

  /**
   * The answer is "Operation Not Found!" exactly when the command parses and
   * no entry's symbol is its operator; then no entry is built.
   */
  lemma {:induction false} NotFoundExactly(input: string, exports: seq<Export>)
    ensures Evaluate(input, exports) == Text(NotFound) <==>
      ParseCommand(input).Some? && forall j :: 0 <= j < |exports| ==> exports[j].symbol != ParseCommand(input).value.operator
    ensures Evaluate(input, exports) == Text(NotFound) ==> Forced(input, exports) == -1
  {
    match ParseCommand(input)
    case None =>
    case Some(c) =>
      var k := FirstMatch(exports, c.operator);
      if k >= 0 {
        var r := exports[k].part.Operate(c.left, c.right);
        if r.Returns? {
          FormatIsNoErrorLine(r.value);
        }
      }
  }

  /**
   * Where there is an operator, the command is the left text, the operator
   * and the right text, and the left text is digits only.
   */
  lemma CommandDecomposition(input: string)
    requires FirstNonDigit(input) >= 0
    ensures var fn := FirstNonDigit(input);
      && input == input[..fn] + [input[fn]] + input[fn + 1..]
      && AllDigits(input[..fn]) && !IsDigit(input[fn])
  {
    var fn := FirstNonDigit(input);
    FirstNonDigitIsFirst(input);
    assert input == input[..fn] + [input[fn]] + input[fn + 1..];
  }

  /**
   * So the left operand fails to parse only when it is empty or too large
   * for an `int`, and otherwise it is the value of its digits.
   */
  lemma LeftOperandParse(input: string)
    requires FirstNonDigit(input) >= 0
    ensures var left := input[..FirstNonDigit(input)];
      && AllDigits(left)
      && (Parse(left).None? <==> left == [] || !InRange(DigitsValue(left)))
      && (Parse(left).Some? ==> Parse(left).value == DigitsValue(left))
  {
    CommandDecomposition(input);
    ParseDigits(input[..FirstNonDigit(input)]);
  }

  /** A parsed command's operator is the first non-digit, and its left operand is never negative. */
  lemma ParsedCommandShape(input: string)
    requires ParseCommand(input).Some?
    ensures var c := ParseCommand(input).value;
      && c.operator == input[FirstNonDigit(input)] && !IsDigit(c.operator)
      && c.left >= 0
  {
    CommandDecomposition(input);
    LeftOperandParse(input);
  }

  /**
   * Conversely, a run of digits, a non-digit and any text form a command
   * split at that non-digit, with the two texts parsed as `int`s.
   */
  lemma {:induction false} SplitAtOperator(left: string, operator: char, right: string)
    requires AllDigits(left) && !IsDigit(operator)
    ensures FirstNonDigit(left + [operator] + right) == |left|
    ensures ParseCommand(left + [operator] + right) ==
      if Parse(left).Some? && Parse(right).Some? then Some(Command(Parse(left).value, operator, Parse(right).value)) else None
  {
    var input := left + [operator] + right;
    FirstNonDigitIsFirst(input);
    assert input[|left|] == operator;
    assert forall j :: 0 <= j < |left| ==> input[j] == left[j];
    assert !AllDigits(input);
    var fn := FirstNonDigit(input);
    assert fn == |left|;
    assert input[..|left|] == left;
    assert input[|left| + 1..] == right;
  }

  /** A signed left operand is not supported: a command starting with a sign does not parse. */
  lemma {:induction false} SignedLeftCannotParse(input: string, exports: seq<Export>)
    requires input != [] && (input[0] == '+' || input[0] == '-')
    ensures Evaluate(input, exports) == Text(CouldNotParse)
  {
    assert FirstNonDigit(input) == 0;
    LeftOperandParse(input);
  }

  /**
   * Every command written as `Format(a)`, an operator, `Format(b)` with
   * `a >= 0` splits back into exactly `a`, the operator and `b`.
   */
  lemma {:induction false} ParseFormattedCommand(a: int32, operator: char, b: int32)
    requires 0 <= a && !IsDigit(operator)
    ensures ParseCommand(Format(a) + [operator] + Format(b)) == Some(Command(a, operator, b))
  {
    SplitAtOperator(Format(a), operator, Format(b));
    ParseFormat(a);
    ParseFormat(b);
  }

  /** So `Calculate` on such a command is the dispatch of its operands. */
  lemma {:induction false} EvaluateFormattedCommand(a: int32, operator: char, b: int32, exports: seq<Export>)
    requires 0 <= a && !IsDigit(operator)
    ensures Evaluate(Format(a) + [operator] + Format(b), exports) == Dispatch(exports, Command(a, operator, b))
    ensures Forced(Format(a) + [operator] + Format(b), exports) == FirstMatch(exports, operator)
  {
    ParseFormattedCommand(a, operator, b);
  }

  /** First match wins: the earliest entry carrying the operator decides the answer. */
  lemma FirstMatchWins(exports: seq<Export>, c: Command, k: nat)
    requires k < |exports| && exports[k].symbol == c.operator
    requires forall j :: 0 <= j < k ==> exports[j].symbol != c.operator
    ensures Dispatch(exports, c) == Render(exports[k].part.Operate(c.left, c.right))
  {
    assert FirstMatch(exports, c.operator) == k;
  }

  /** An entry registered before all others with the operator's symbol shadows every later one. */
  lemma EarlierRegistrationShadows(e: Export, exports: seq<Export>, c: Command)
    requires e.symbol == c.operator
    ensures Dispatch([e] + exports, c) == Render(e.part.Operate(c.left, c.right))
  {
    FirstMatchWins([e] + exports, c, 0);
  }

  /** Registering, after the others, an export whose symbol is already taken changes no answer. */
  lemma {:induction false} LaterDuplicateIgnored(exports: seq<Export>, e: Export, c: Command)
    requires exists j :: 0 <= j < |exports| && exports[j].symbol == e.symbol
    ensures Dispatch(exports + [e], c) == Dispatch(exports, c)
  {
    var k := FirstMatch(exports, c.operator);
    if k >= 0 {
      assert (exports + [e])[k] == exports[k];
      FirstMatchWins(exports + [e], c, k);
    } else {
      var j :| 0 <= j < |exports| && exports[j].symbol == e.symbol;
      assert exports[j].symbol != c.operator;
      assert forall i :: 0 <= i < |exports + [e]| ==> (exports + [e])[i].symbol != c.operator by {
        forall i | 0 <= i < |exports + [e]|
          ensures (exports + [e])[i].symbol != c.operator
        {
          if i < |exports| {
            assert (exports + [e])[i] == exports[i];
          }
        }
      }
    }
  }

  /** With a zero right operand `%` throws, and `Calculate` lets the exception escape. */
  lemma {:induction false} ModByZeroEscapes(a: int32, exports: seq<Export>)
    requires 0 <= a
    requires FirstMatch(exports, '%') >= 0 && exports[FirstMatch(exports, '%')].part == Mod
    ensures Evaluate(Format(a) + "%0", exports) == Raised(DivideByZeroException)
  {
    assert Format(0) == "0";
    assert Format(a) + "%0" == Format(a) + ['%'] + Format(0);
    EvaluateFormattedCommand(a, '%', 0, exports);
  }

  /** `Subtract` undoes `Add`, even when the sum wraps around. */
  lemma {:induction false} SubtractUndoesAdd(a: int32, b: int32)
    ensures Subtract.Operate(Add.Operate(a, b).value, b) == Returns(a)
  {
    var s := Add.Operate(a, b).value;
    var k := (a + b - s) / Modulus;
    assert a + b - s == k * Modulus;
    assert (s - b - a) == (-k) * Modulus;
    WrapCongruent(s - b, a);
  }

  /** With the answer's command known, `Evaluate` is its dispatch. */
  lemma EvaluateCommand(input: string, exports: seq<Export>, c: Command)
    requires ParseCommand(input) == Some(c)
    ensures Evaluate(input, exports) == Dispatch(exports, c)
  {
  }

  /**
   * The standard composition on a command of two formatted operands: `+`
   * and `-` are the wrapping sum and difference, `%` is the remainder
   * `ExtendedOperations` computes, and any other operator is not found.
   */
  lemma {:induction false} StandardCommand(a: int32, operator: char, b: int32)
    requires 0 <= a && !IsDigit(operator)
    ensures Evaluate(Format(a) + [operator] + Format(b), StandardRegistry()) ==
      if operator == '+' then Text(Format(Wrap(a + b)))
      else if operator == '-' then Text(Format(Wrap(a - b)))
      else if operator == '%' then Render(ExtendedOperations.Operate(a, b))
      else Text(NotFound)
  {
    ParseFormattedCommand(a, operator, b);
    EvaluateCommand(Format(a) + [operator] + Format(b), StandardRegistry(), Command(a, operator, b));
    var r := StandardRegistry();
    assert r[0].symbol == '+' && r[1].symbol == '-' && r[2].symbol == '%';
    if operator == '+' {
      assert FirstMatch(r, operator) == 0;
    } else if operator == '-' {
      assert FirstMatch(r, operator) == 1;
    } else if operator == '%' {
      assert FirstMatch(r, operator) == 2;
    } else {
      assert FirstMatch(r, operator) == -1;
    }
  }

  /** `3+4` is 7. */
  lemma AddScenario()
    ensures Evaluate("3+4", StandardRegistry()) == Text("7")
  {
    assert "3+4" == Format(3) + ['+'] + Format(4);
    StandardCommand(3, '+', 4);
  }

  /** `10-3` is 7. */
  lemma SubtractScenario()
    ensures Evaluate("10-3", StandardRegistry()) == Text("7")
  {
    assert "10-3" == Format(10) + ['-'] + Format(3);
    StandardCommand(10, '-', 3);
  }

  /** `10%3` is 1. */
  lemma ModScenario()
    ensures Evaluate("10%3", StandardRegistry()) == Text("1")
  {
    assert "10%3" == Format(10) + ['%'] + Format(3);
    StandardCommand(10, '%', 3);
    ExtendedOperations.OperateExamples();
  }

  /** `5*2`: there is no `*` part. */
  lemma UnknownOperatorScenario()
    ensures Evaluate("5*2", StandardRegistry()) == Text(NotFound)
  {
    assert "5*2" == Format(5) + ['*'] + Format(2);
    StandardCommand(5, '*', 2);
  }

  /** A right operand may carry a `+` sign, which `Int32.Parse` accepts. */
  lemma PlusSignedOperand(b: int32)
    requires b >= 0
    ensures Parse("+" + Format(b)) == Some(b)
  {
    var n := Numeral("", "+", Format(b), "");
    assert n.Valid() && n.Denotes() == b;
    assert n.Text() == "+" + Format(b);
    ParseNumeral(n);
  }

  /**
   * A space after the left operand is read as the operator, even when a
   * signed right operand follows it; no part exports the space, so such a
   * command is "Operation Not Found!".
   */
  lemma {:induction false} SpaceAsOperator(left: string, right: string)
    requires AllDigits(left) && Parse(left).Some? && Parse(right).Some?
    ensures Evaluate(left + [' '] + right, StandardRegistry()) == Text(NotFound)
  {
    SplitAtOperator(left, ' ', right);
    EvaluateCommand(left + [' '] + right, StandardRegistry(), Command(Parse(left).value, ' ', Parse(right).value));
    assert FirstMatch(StandardRegistry(), ' ') == -1;
  }

  /** In particular a space between a left operand and a `+`-signed right one. */
  lemma {:induction false} SpaceBeforeSign(a: int32, b: int32)
    requires a >= 0 && b >= 0
    ensures Evaluate(Format(a) + [' '] + ("+" + Format(b)), StandardRegistry()) == Text(NotFound)
  {
    FormatAlphabet(a);
    ParseFormat(a);
    PlusSignedOperand(b);
    SpaceAsOperator(Format(a), "+" + Format(b));
  }

  /** `3 +5`; the text is a parameter so that the verifier does not evaluate `Parse` on a literal. */
  lemma SpaceOperatorScenario(input: string)
    requires input == "3 +5"
    ensures Evaluate(input, StandardRegistry()) == Text(NotFound)
  {
    assert input == Format(3) + [' '] + ("+" + Format(5));
    SpaceBeforeSign(3, 5);
  }

  /** An operator at the very end leaves an empty right operand, which does not parse. */
  lemma EmptyRightCannotParse(input: string, exports: seq<Export>)
    requires FirstNonDigit(input) == |input| - 1
    ensures Evaluate(input, exports) == Text(CouldNotParse)
  {
    assert input[|input|..] == [];
    assert Scan([]) == None;
  }

  /** `abc` and `+5` have an empty left operand. */
  lemma EmptyLeftScenarios()
    ensures Evaluate("abc", StandardRegistry()) == Text(CouldNotParse)
    ensures Evaluate("+5", StandardRegistry()) == Text(CouldNotParse)
  {
    SignedLeftCannotParse("+5", StandardRegistry());
    assert FirstNonDigit("abc") == 0;
    LeftOperandParse("abc");
  }

  /** `5+` has an empty right operand; the text is a parameter, as in `SpaceOperatorScenario`. */
  lemma NoRightScenario(input: string)
    requires input == "5+"
    ensures Evaluate(input, StandardRegistry()) == Text(CouldNotParse)
  {
    assert FirstNonDigit(input) == 1;
    EmptyRightCannotParse(input, StandardRegistry());
  }

  /** `123` and the empty command have no operator. */
  lemma NoOperatorScenarios()
    ensures Evaluate("123", StandardRegistry()) == Text(CouldNotParse)
    ensures Evaluate("", StandardRegistry()) == Text(CouldNotParse)
  {
    AllDigitsCannotParse("123", StandardRegistry());
    AllDigitsCannotParse("", StandardRegistry());
  }

  /** The right operand is read by `Int32.Parse`, so it may carry a sign: `3+-5` is -2. */
  lemma SignedRightScenario()
    ensures Evaluate("3+-5", StandardRegistry()) == Text("-2")
  {
    assert Format(3) == "3" && Format(-5) == "-5" && Format(-2) == "-2";
    assert "3+-5" == Format(3) + ['+'] + Format(-5);
    StandardCommand(3, '+', -5);
  }

  /**
   * The largest `int` plus one wraps around to the smallest: `2147483647+1`
   * gives `-2147483648`. The two numbers are written as `Format(MaxValue)`
   * and `Format(MinValue)` so that the verifier does not print them digit by digit.
   */
  lemma WrapAroundScenario()
    ensures Evaluate(Format(MaxValue) + "+1", StandardRegistry()) == Text(Format(MinValue))
  {
    assert Format(MaxValue) + "+1" == Format(MaxValue) + ['+'] + Format(1);
    StandardCommand(MaxValue, '+', 1);
    WrapCongruent(MaxValue + 1, MinValue);
  }
}
