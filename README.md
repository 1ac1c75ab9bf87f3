# SimpleCalculator, modelled in Dafny

This project models the calculator built on the Managed Extensibility Framework
(MEF). `MySimpleCalculator.Calculate` reads a command such as `10%3`. It splits
the command at its first non-digit character and parses the text before and
after that character with `Int32.Parse`. It then walks its `[ImportMany]`
collection of `Lazy<IOperation, IOperationData>` entries and applies the first
part whose `Symbol` metadata equals the character. That part is built on first
use. The parts are `Add` (`+`) and `Subtract` (`-`) from the main assembly and
`Mod` (`%`) from the extension assembly.

Modules:

- `CSharpInt` (`csharp_int.dfy`): the C# `int`.
  - Unchecked `+` and `-` are `Wrap`, the two's-complement wrap-around modulo 2^32.
  - `%` truncates toward zero; `Remainder` defines it as `l - (l / r) * r`.
  - The exceptions `%` raises are a `Checked` value.
- `Int32Text` (`int32_text.dfy`): `Int32.Parse` and `Int32.ToString`.
  - `Parse` follows number style Integer in the invariant culture: optional white space, an optional `+` or `-`, one or more digits, optional white space, and a range check.
  - A failure (FormatException or OverflowException) is `None`.
  - `Format` is `ToString`.
  - `Parse` is proved against the `Numeral` grammar in both directions, and `Parse(Format(x)) == Some(x)` is proved.
- `ExtendedOperations` (`extended_operations.dfy`): the `Mod` part.
- `SimpleCalculator` (`simple_calculator.dfy`): the parts, the lazy entries and the calculator.
  - Operation classes:
    - `LazyOperation` is a class. Its `instance` field is memoised by `Value()`.
    - `MySimpleCalculator` is a class holding the sequence of entries, with the methods `Calculate` (the imperative steps of the source) and `FindFirstNonDigit` (the source's loop).
  - Specification functions:
    - `Evaluate(input, exports)` is the answer.
    - `Forced(input, exports)` is the one entry `Calculate` builds, or -1.
    - `ParseCommand`, `FirstMatch` and `Dispatch` are its parts.
- `CalculatorProperties` (`calculator_properties.dfy`): what `Calculate` promises, stated over `Evaluate`.
  - Exactly when each error line appears.
  - First match wins.
  - How the command is split.
  - The standard composition of the three parts.
  - Worked commands.

`Calculate` returns an `Answer`. A line of text is `Text`. An
ArithmeticException that escapes from `Mod.Operate` is `Raised`: the source
does not catch it.

The code lets `Int32.Parse` read the right operand, so a signed right operand
is accepted. `3+-5` evaluates to `-2`, and `3 +5` takes the space as its
operator. Only the left operand is restricted to digits, because it ends at the
first non-digit (`SignedRightScenario`, `SpaceOperatorScenario`).

## Model

| member | source | states |
|---|---|---|
| CSharpInt.Wrap | MEFSample1/SimpleCalculator/Program.cs:129 | the unchecked result is the `int` congruent to the exact sum modulo 2^32, and is the exact sum when that fits |
| CSharpInt.CongruentInt32sAreEqual | MEFSample1/SimpleCalculator/Program.cs:129 | two `int` values congruent modulo 2^32 are equal, so the wrapped result is unique |
| CSharpInt.WrapCongruent | MEFSample1/SimpleCalculator/Program.cs:139 | wrapping depends only on the residue modulo 2^32 |
| CSharpInt.Quotient | MEFSample1/ExtendedOperations/Class1.cs:16 | C# `l / r`, the quotient truncated toward zero; specification function, its properties are stated by `RemainderOfMagnitudes` and `ExtendedOperations.Operate` |
| CSharpInt.Remainder | MEFSample1/ExtendedOperations/Class1.cs:16 | C# `l % r`, defined as `l - (l / r) * r`; specification function, characterised by `RemainderOfMagnitudes`, `ExtendedOperations.OperateBounded` and `ExtendedOperations.OperateSign` |
| CSharpInt.RemainderOfMagnitudes | MEFSample1/ExtendedOperations/Class1.cs:16 | C# `%` (defined through the truncating quotient) is the remainder of the magnitudes with the dividend's sign |
| ExtendedOperations.Operate | MEFSample1/ExtendedOperations/Class1.cs:14-17 | `left % right` throws exactly when `right` is 0 (DivideByZeroException) or for `int.MinValue % -1` (OverflowException); otherwise it is `left - (left / right) * right` |
| ExtendedOperations.OperateBounded | MEFSample1/ExtendedOperations/Class1.cs:16 | the remainder is smaller in magnitude than the divisor |
| ExtendedOperations.OperateSign | MEFSample1/ExtendedOperations/Class1.cs:16 | the remainder is zero or has the sign of the dividend |
| ExtendedOperations.OperateSmallDividend | MEFSample1/ExtendedOperations/Class1.cs:16 | `a % b == a` for `0 <= a < b` |
| ExtendedOperations.OperateExamples | MEFSample1/ExtendedOperations/Class1.cs:16 | `10 % 3 == 1`, `-7 % 3 == -1`, `7 % -3 == 1`, `-7 % -3 == -1`, `7 % 0` throws |
| Int32Text.SpanIsMaximalRun | MEFSample1/SimpleCalculator/Program.cs:74-75 | the scanner's run of white space or digits is a run of that class, followed by the end or by another character |
| Int32Text.Parse | MEFSample1/SimpleCalculator/Program.cs:74-75 | `Int32.Parse`, `None` for FormatException and OverflowException; specification function, characterised in both directions by `ParseSound` and `ParseNumeral` |
| Int32Text.ScanSound | MEFSample1/SimpleCalculator/Program.cs:74-75 | what the scanner splits off is a well-formed numeral whose text is the whole input |
| Int32Text.ScanNumeral | MEFSample1/SimpleCalculator/Program.cs:74-75 | every well-formed numeral is split back into its own white space, sign, digits and trailing white space |
| Int32Text.ParseSound | MEFSample1/SimpleCalculator/Program.cs:74-75 | whatever `Int32.Parse` accepts is a well-formed numeral denoting the result |
| Int32Text.ParseNumeral | MEFSample1/SimpleCalculator/Program.cs:74-75 | every well-formed numeral parses to its value if that is an `int`, and fails (OverflowException) otherwise |
| Int32Text.ParseDigits | MEFSample1/SimpleCalculator/Program.cs:74 | digits alone parse exactly when non-empty and within range, to the value of the digits |
| Int32Text.NatToDecimal | MEFSample1/SimpleCalculator/Program.cs:91 | `ToString` of a magnitude is non-empty digits denoting it, with no leading zero |
| Int32Text.Format | MEFSample1/SimpleCalculator/Program.cs:91 | `Int32.ToString`; specification function, characterised by `FormatAlphabet`, `ParseFormat` and `NatToDecimal` |
| Int32Text.FormatAlphabet | MEFSample1/SimpleCalculator/Program.cs:91 | the printed text is never empty and holds only digits and `-` |
| Int32Text.ParseFormat | MEFSample1/SimpleCalculator/Program.cs:91 | parsing the text `ToString` prints gives the `int` back |
| SimpleCalculator.Op.Operate | MEFSample1/SimpleCalculator/Program.cs:125-141 | `Add` and `Subtract` never throw and give the exact sum or difference modulo 2^32 (exactly, when it fits); `Mod` is the extension's `Operate` |
| SimpleCalculator.Exported | MEFSample1/SimpleCalculator/Program.cs:121-134 | `Add` is exported under `+`, `Subtract` under `-`, `Mod` under `%` (the extension's symbol, Class1.cs:11) |
| SimpleCalculator.ExportedSymbolsDistinct | MEFSample1/ExtendedOperations/Class1.cs:10-11 | different parts export different symbols, so none shadows another |
| SimpleCalculator.FirstNonDigit | MEFSample1/SimpleCalculator/Program.cs:99-106 | the index is -1 or a position of the text; what it finds is stated by `FirstNonDigitIsFirst` |
| SimpleCalculator.FirstNonDigitIsFirst | MEFSample1/SimpleCalculator/Program.cs:99-106 | the index is -1 exactly when every character is a digit; otherwise the character there is the first that is not a digit |
| SimpleCalculator.ParseCommand | MEFSample1/SimpleCalculator/Program.cs:67-83 | the split of the command into two parsed operands around the first non-digit; specification function, characterised by `CalculatorProperties.CommandDecomposition`, `CalculatorProperties.ParsedCommandShape`, `CalculatorProperties.SplitAtOperator` and `CalculatorProperties.CouldNotParseExactly` |
| SimpleCalculator.FirstMatch | MEFSample1/SimpleCalculator/Program.cs:86-93 | the index found carries the symbol, and no earlier entry (none at all for -1) does |
| SimpleCalculator.Render | MEFSample1/SimpleCalculator/Program.cs:91 | the printed result, or the exception passed on uncaught; specification function, stated by `CalculatorProperties.FormatIsNoErrorLine` and `CalculatorProperties.ModByZeroEscapes` |
| SimpleCalculator.Dispatch | MEFSample1/SimpleCalculator/Program.cs:86-95 | the `foreach` over the entries; specification function, characterised by `CalculatorProperties.FirstMatchWins`, `CalculatorProperties.NotFoundExactly`, `CalculatorProperties.DispatchIgnoresOrder` and `CalculatorProperties.StandardCommand` |
| SimpleCalculator.Evaluate | MEFSample1/SimpleCalculator/Program.cs:61-96 | the answer of `Calculate`; specification function, characterised by `CalculatorProperties.CouldNotParseExactly`, `CalculatorProperties.NotFoundExactly`, `CalculatorProperties.FirstMatchWins` and `CalculatorProperties.EvaluateFormattedCommand`, and met by `MySimpleCalculator.Calculate` |
| SimpleCalculator.Forced | MEFSample1/SimpleCalculator/Program.cs:86-91 | the one entry whose `Value` `Calculate` reads; specification function, stated by `CalculatorProperties.NotFoundExactly` and `CalculatorProperties.EvaluateFormattedCommand`, and met by `MySimpleCalculator.Calculate` |
| SimpleCalculator.EvaluateWithoutOperator | MEFSample1/SimpleCalculator/Program.cs:67-69 | (proof helper for `Calculate`) no non-digit: "Could not parse command." and no part is built |
| SimpleCalculator.EvaluateAt | MEFSample1/SimpleCalculator/Program.cs:71-83 | (proof helper for `Calculate`) once both texts are parsed, a failure is "Could not parse command." and success dispatches on `input[fn]` |
| SimpleCalculator.LazyOperation.constructor | MEFSample1/SimpleCalculator/Program.cs:58 | an entry holds the export's metadata and part and has not yet been created |
| SimpleCalculator.LazyOperation.Value | MEFSample1/SimpleCalculator/Program.cs:91 | `Lazy.Value` returns the part, builds it at most once, and leaves a built entry unchanged |
| SimpleCalculator.MySimpleCalculator.constructor | MEFSample1/SimpleCalculator/Program.cs:56-58 | composition fills the import with one fresh, unbuilt entry per export, in order |
| SimpleCalculator.MySimpleCalculator.FindFirstNonDigit | MEFSample1/SimpleCalculator/Program.cs:99-106 | the loop returns the index of the first non-digit, or -1 |
| SimpleCalculator.MySimpleCalculator.Calculate | MEFSample1/SimpleCalculator/Program.cs:61-96 | the answer is `Evaluate(input, exports)`; only the entry `Forced` names is built, every other entry is unchanged |
| SimpleCalculator.MySimpleCalculator.FindAndOperate | MEFSample1/SimpleCalculator/Program.cs:86-95 | the `foreach` answers `Dispatch` and builds only the first entry with the operator's symbol |
| CalculatorProperties.StandardRegistry | MEFSample1/SimpleCalculator/Program.cs:24-30 | the catalog supplies three exports, `Add` under `+`, `Subtract` under `-`, `Mod` under `%`, whose symbols are pairwise distinct |
| CalculatorProperties.DispatchIgnoresOrder | MEFSample1/SimpleCalculator/Program.cs:86-93 | over a registry with distinct symbols, any reordering of the entries dispatches every command the same way |
| CalculatorProperties.EvaluateIgnoresOrder | MEFSample1/SimpleCalculator/Program.cs:56-58 | so the answer to every input is the same whatever order `[ImportMany]` supplies such a registry in |
| CalculatorProperties.StandardOrderIrrelevant | MEFSample1/SimpleCalculator/Program.cs:56-58 | any order of the three standard exports answers every input as `Add`, `Subtract`, `Mod` does |
| CalculatorProperties.FormatIsNoErrorLine | MEFSample1/SimpleCalculator/Program.cs:91 | a printed result can never be mistaken for either error line |
| CalculatorProperties.AllDigitsCannotParse | MEFSample1/SimpleCalculator/Program.cs:67-69 | an input of digits only (or empty) is "Could not parse command." and builds nothing |
| CalculatorProperties.CouldNotParseExactly | MEFSample1/SimpleCalculator/Program.cs:67-80 | the answer is "Could not parse command." if and only if the command does not split into two `int` operands around an operator |
| CalculatorProperties.NotFoundExactly | MEFSample1/SimpleCalculator/Program.cs:86-95 | the answer is "Operation Not Found!" if and only if the command parses and no entry has its operator; then nothing is built |
| CalculatorProperties.CommandDecomposition | MEFSample1/SimpleCalculator/Program.cs:67-83 | the input is the digits before the operator, the operator, and the rest |
| CalculatorProperties.LeftOperandParse | MEFSample1/SimpleCalculator/Program.cs:74 | the left text fails to parse exactly when it is empty or out of range, and is otherwise its digits' value |
| CalculatorProperties.ParsedCommandShape | MEFSample1/SimpleCalculator/Program.cs:74-83 | a parsed command's operator is the first non-digit, and its left operand is never negative |
| CalculatorProperties.SplitAtOperator | MEFSample1/SimpleCalculator/Program.cs:67-83 | digits, a non-digit and any text split at that non-digit, into the two parsed texts |
| CalculatorProperties.SignedLeftCannotParse | MEFSample1/SimpleCalculator/Program.cs:67-74 | a command that starts with a sign is "Could not parse command." |
| CalculatorProperties.ParseFormattedCommand | MEFSample1/SimpleCalculator/Program.cs:74-83 | printed operands around a non-digit split back into exactly those operands |
| CalculatorProperties.EvaluateFormattedCommand | MEFSample1/SimpleCalculator/Program.cs:61-96 | such a command answers the dispatch of its operands and builds the first entry with its operator |
| CalculatorProperties.FirstMatchWins | MEFSample1/SimpleCalculator/Program.cs:86-92 | the earliest entry with the operator decides the answer |
| CalculatorProperties.EarlierRegistrationShadows | MEFSample1/SimpleCalculator/Program.cs:86-92 | an entry ahead of all others with the same symbol shadows them |
| CalculatorProperties.LaterDuplicateIgnored | MEFSample1/SimpleCalculator/Program.cs:86-92 | appending an export whose symbol some entry already carries changes the answer to no command |
| CalculatorProperties.ModByZeroEscapes | MEFSample1/ExtendedOperations/Class1.cs:16 | `a%0` makes `Calculate` raise DivideByZeroException |
| CalculatorProperties.SubtractUndoesAdd | MEFSample1/SimpleCalculator/Program.cs:127-140 | `(a + b) - b == a` even when the sum wraps around |
| CalculatorProperties.EvaluateCommand | MEFSample1/SimpleCalculator/Program.cs:86-95 | (proof helper for the scenarios) a parsed command's answer is its dispatch |
| CalculatorProperties.StandardCommand | MEFSample1/SimpleCalculator/Program.cs:86-95 | with the three standard parts, `+` and `-` print the wrapped sum and difference, `%` gives the extension's result, and anything else is "Operation Not Found!" |
| CalculatorProperties.AddScenario | MEFSample1/SimpleCalculator/Program.cs:129 | `3+4` gives `7` |
| CalculatorProperties.SubtractScenario | MEFSample1/SimpleCalculator/Program.cs:139 | `10-3` gives `7` |
| CalculatorProperties.ModScenario | MEFSample1/ExtendedOperations/Class1.cs:16 | `10%3` gives `1` |
| CalculatorProperties.UnknownOperatorScenario | MEFSample1/SimpleCalculator/Program.cs:95 | `5*2` gives "Operation Not Found!" |
| CalculatorProperties.PlusSignedOperand | MEFSample1/SimpleCalculator/Program.cs:75 | `Int32.Parse` accepts a `+` sign on the right operand |
| CalculatorProperties.SpaceAsOperator | MEFSample1/SimpleCalculator/Program.cs:83-95 | a space after the left operand is taken as the operator and is not found |
| CalculatorProperties.SpaceBeforeSign | MEFSample1/SimpleCalculator/Program.cs:83-95 | `a +b` gives "Operation Not Found!" |
| CalculatorProperties.SpaceOperatorScenario | MEFSample1/SimpleCalculator/Program.cs:83-95 | `3 +5` gives "Operation Not Found!" |
| CalculatorProperties.EmptyRightCannotParse | MEFSample1/SimpleCalculator/Program.cs:75-79 | an operator at the end leaves an empty right text: "Could not parse command." |
| CalculatorProperties.EmptyLeftScenarios | MEFSample1/SimpleCalculator/Program.cs:74-79 | `abc` and `+5` give "Could not parse command." |
| CalculatorProperties.NoRightScenario | MEFSample1/SimpleCalculator/Program.cs:75-79 | `5+` gives "Could not parse command." |
| CalculatorProperties.NoOperatorScenarios | MEFSample1/SimpleCalculator/Program.cs:67-69 | `123` and the empty command give "Could not parse command." |
| CalculatorProperties.SignedRightScenario | MEFSample1/SimpleCalculator/Program.cs:75 | `3+-5` gives `-2` |
| CalculatorProperties.WrapAroundScenario | MEFSample1/SimpleCalculator/Program.cs:129 | `2147483647+1` gives `-2147483648` |

## Left out

- MEF composition (Program.cs:19-38) is left out: the catalogs, the extension directory and `ComposeParts`. The `MySimpleCalculator` constructor takes the exports in the order composition would supply them. `StandardRegistry` is the sample's composition.
- The order `[ImportMany]` yields exports in is not fixed by the model. The lemmas stated for any `exports` hold for every order. `StandardCommand` and the scenario lemmas are stated for the order `Add`, `Subtract`, `Mod`; `StandardOrderIrrelevant` shows that every other order of those three answers the same. Which entry `Forced` names does depend on the order.
- The CompositionException handler that prints the exception is left out because it is console output.
- `Main` is left out (Program.cs:143-153). It is the read–print console loop, and `ReadLine` can return null at end of input; both are I/O.
- `Calculate(null)`, which throws NullReferenceException, is left out: `string` here is never null.
- Thread safety of `Lazy<T>` is left out, because the model is sequential. `constructions` is ghost instrumentation: it counts how often an entry's factory runs.
- `MySimpleCalculator.FindAndOperate` is the `foreach` of `Calculate` (Program.cs:86-95), written as a method of its own. `Calculate` calls it at the point where the source runs the loop.
- `MySimpleCalculator.FindFirstNonDigit` is static: the source's instance method reads no field.
- `FirstNonDigit`, `ParseCommand`, `Evaluate` and `MySimpleCalculator.Calculate` treat a string as a sequence of Unicode scalar values, while C# indexes UTF-16 code units. For a character outside the Basic Multilingual Plane the two differ. In `3😀5` the model takes the emoji as the operator and answers "Operation Not Found!". The source splits at the high surrogate, leaves the low surrogate at the start of the right text, and answers "Could not parse command.". Strings with unpaired surrogates, such as `3\uD800`, cannot be written in the model at all.
- `char.IsDigit` accepts every Unicode decimal digit, but the model accepts only `0`–`9`. Because `Int32.Parse` accepts only ASCII digits, the answers also differ for inputs that contain other decimal digits.
- Culture-specific signs and white space are not modelled: the model uses the invariant culture's `+`, `-` and ASCII white space.
- The trailing NUL characters .NET parsing tolerates are not modelled.
- `ToString` is modelled only as the invariant plain decimal form.
- `int.MinValue % -1` is modelled as OverflowException, which is what the x86 and x64 runtimes throw. C# allows either that or 0.
- Attributes (`Export`, `ExportMetadata`, `Import`, `ImportMany`) are represented by `Exported` and the `Export` datatype, not by reflection.
