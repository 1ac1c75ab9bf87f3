/**
 * The MySimpleCalculator part: it splits a command such as `10%3` at its
 * first non-digit character, parses the two operands, and dispatches to the
 * first imported IOperation whose `Symbol` metadata is that character,
 * building the part lazily on first use.
 */
module SimpleCalculator {
  import opened Options
  import opened CSharpInt
  import opened Int32Text
  import ExtendedOperations

  const CouldNotParse: string := "Could not parse command."
  const NotFound: string := "Operation Not Found!"

  /** The IOperation parts a catalog can export. */
  datatype Op = Add | Subtract | Mod
  {
    /** The `Symbol` each part declares in its ExportMetadata attribute. */
    function Symbol(): char {
      match this
      case Add => '+'
      case Subtract => '-'
      case Mod => ExtendedOperations.Symbol
    }

    /** `IOperation.Operate`; `+` and `-` wrap around on overflow, as unchecked C# does. */
    function Operate(left: int32, right: int32): (r: Checked)
      ensures this != Mod ==> r.Returns?
      ensures this == Add ==> (left + right - r.value) % Modulus == 0
      ensures this == Add && InRange(left + right) ==> r == Returns(left + right)
      ensures this == Subtract ==> (left - right - r.value) % Modulus == 0
      ensures this == Subtract && InRange(left - right) ==> r == Returns(left - right)
      ensures this == Mod ==> r == ExtendedOperations.Operate(left, right)
    {
      match this
      case Add => Returns(Wrap(left + right))
      case Subtract => Returns(Wrap(left - right))
      case Mod => ExtendedOperations.Operate(left, right)
    }
  }

  /** One export as the catalog hands it over: its `Symbol` metadata and the part it builds. */
  datatype Export = Export(symbol: char, part: Op)

  /**
   * The export a part's own attributes declare: `Add` under `+`, `Subtract`
   * under `-` and `Mod` under the extension's `%`.
   */
  function Exported(op: Op): (e: Export)
    ensures e.part == op
    ensures op == Add ==> e.symbol == '+'
    ensures op == Subtract ==> e.symbol == '-'
    ensures op == Mod ==> e.symbol == ExtendedOperations.Symbol
  {
    Export(op.Symbol(), op)
  }

  /** No two parts declare the same symbol, so none of them can shadow another. */
  lemma ExportedSymbolsDistinct(a: Op, b: Op)
    ensures Exported(a).symbol == Exported(b).symbol ==> a == b
  {
  }

  /** No two entries of `exports` carry the same symbol. */
  predicate DistinctSymbols(exports: seq<Export>) {
    forall i, j :: 0 <= i < j < |exports| ==> exports[i].symbol != exports[j].symbol
  }

  /** What `Calculate` produces: a line of text, or an exception escaping from `Operate`. */
  datatype Answer = Text(text: string) | Raised(exception: ArithmeticException)

  /** A command split into its operands and operator. */
  datatype Command = Command(left: int32, operator: char, right: int32)

  /** The index of the first character of `s` that is not a digit, or -1 if there is none. */
  function FirstNonDigit(s: string): (fn: int)
    ensures -1 <= fn < |s|
  {
    if s == [] then -1
    else if !IsDigit(s[0]) then 0
    else
      var k := FirstNonDigit(s[1..]);
      if k < 0 then -1 else k + 1
  }

  /**
   * `FirstNonDigit(s)` is -1 exactly when every character is a digit (the
   * empty string included); otherwise every character before it is a digit
   * and the one at it is not.
   */
  lemma {:induction false} FirstNonDigitIsFirst(s: string)
    ensures FirstNonDigit(s) == -1 <==> AllDigits(s)
    ensures FirstNonDigit(s) >= 0 ==>
      !IsDigit(s[FirstNonDigit(s)]) && forall j :: 0 <= j < FirstNonDigit(s) ==> IsDigit(s[j])
  {
    if s != [] && IsDigit(s[0]) {
      FirstNonDigitIsFirst(s[1..]);
      assert forall j :: 1 <= j < |s| ==> s[j] == s[1..][j - 1];
    }
  }

  /**
   * The operand and operator part of `Calculate`: the text before the first
   * non-digit, that character, and the text after it, both texts parsed with
   * `Int32.Parse`.
   */
  function ParseCommand(input: string): Option<Command> {
    var fn := FirstNonDigit(input);
    if fn < 0 then None
    else
      match (Parse(input[..fn]), Parse(input[fn + 1..]))
      case (Some(left), Some(right)) => Some(Command(left, input[fn], right))
      case _ => None
  }

  /** The index of the first export whose symbol is `symbol`, or -1 if there is none. */
  function FirstMatch(exports: seq<Export>, symbol: char): (k: int)
    ensures -1 <= k < |exports|
    ensures k >= 0 ==> exports[k].symbol == symbol
    ensures forall j :: 0 <= j < |exports| && (k < 0 || j < k) ==> exports[j].symbol != symbol
  {
    if exports == [] then -1
    else if exports[0].symbol == symbol then 0
    else
      var k := FirstMatch(exports[1..], symbol);
      if k < 0 then -1 else k + 1
  }

  /** The line `Calculate` prints for an `Operate` outcome; an exception passes through. */
  function Render(r: Checked): Answer {
    match r
    case Returns(v) => Text(Format(v))
    case Throws(e) => Raised(e)
  }

  /** The lookup half of `Calculate`: the first export with the command's operator is applied. */
  function Dispatch(exports: seq<Export>, c: Command): Answer {
    var k := FirstMatch(exports, c.operator);
    if k < 0 then Text(NotFound) else Render(exports[k].part.Operate(c.left, c.right))
  }

  /** What `Calculate(input)` returns over a registry holding `exports`, in order. */
  function Evaluate(input: string, exports: seq<Export>): Answer {
    match ParseCommand(input)
    case None => Text(CouldNotParse)
    case Some(c) => Dispatch(exports, c)
  }

  /** The index of the registry entry `Calculate(input)` forces, or -1 if it forces none. */
  function Forced(input: string, exports: seq<Export>): int {
    match ParseCommand(input)
    case None => -1
    case Some(c) => FirstMatch(exports, c.operator)
  }

  /**
   * `Lazy<IOperation, IOperationData>`: the metadata is there from the start,
   * the part is built the first time `Value` is read and kept from then on.
   */
  class LazyOperation {
    /** `Metadata.Symbol`. */
    const metadata: char
    /** The part the export's factory builds. */
    const part: Op
    /** The memoised instance; `Some` once `IsValueCreated`. */
    var instance: Option<Op>
    /** How many times the factory has run. */
    ghost var constructions: nat

    ghost predicate Valid()
      reads this
    {
      && constructions <= 1
      && (instance.Some? <==> constructions == 1)
      && (instance.Some? ==> instance.value == part)
    }

    constructor (exported: Export)
      ensures Valid()
      ensures metadata == exported.symbol && part == exported.part
      ensures instance == None
    {
      metadata := exported.symbol;
      part := exported.part;
      instance := None;
      constructions := 0;
    }

    /** `Lazy.Value`: runs the factory on first use only. */
    method Value() returns (op: Op)
      requires Valid()
      modifies this
      ensures Valid()
      ensures op == part && instance == Some(part)
      ensures constructions == 1
      ensures old(instance).Some? ==> constructions == old(constructions)
    {
      if instance.None? {
        instance := Some(part);
        constructions := constructions + 1;
      }
      op := instance.value;
    }
  }

  /** An input without a non-digit yields the parse error and forces nothing. */
  lemma EvaluateWithoutOperator(input: string, exports: seq<Export>)
    requires FirstNonDigit(input) < 0
    ensures Evaluate(input, exports) == Text(CouldNotParse) && Forced(input, exports) == -1
  {
  }

  /**
   * Once the operator is at `fn` and the two texts around it have been
   * parsed to `left` and `right`, the answer and the forced entry follow.
   */
  lemma EvaluateAt(input: string, exports: seq<Export>, fn: nat, left: Option<int32>, right: Option<int32>)
    requires fn == FirstNonDigit(input)
    requires left == Parse(input[..fn]) && right == Parse(input[fn + 1..])
    ensures left.None? || right.None? ==> Evaluate(input, exports) == Text(CouldNotParse) && Forced(input, exports) == -1
    ensures left.Some? && right.Some? ==>
      && Evaluate(input, exports) == Dispatch(exports, Command(left.value, input[fn], right.value))
      && Forced(input, exports) == FirstMatch(exports, input[fn])
  {
  }

  class MySimpleCalculator {
    /** The `[ImportMany]` collection, in the order composition supplied it. */
    const operations: seq<LazyOperation>
    /** The metadata and part of each entry, in order. */
    ghost const exports: seq<Export>

    ghost predicate Valid()
      reads this, operations
    {
      && |exports| == |operations|
      && (forall i :: 0 <= i < |operations| ==> exports[i] == Export(operations[i].metadata, operations[i].part))
      && (forall i :: 0 <= i < |operations| ==> operations[i].Valid())
      && (forall i, j :: 0 <= i < j < |operations| ==> operations[i] != operations[j])
    }

    /** Composition: one fresh, not yet built lazy entry per export, in the given order. */
    constructor (exports: seq<Export>)
      ensures Valid() && this.exports == exports
      ensures forall i :: 0 <= i < |operations| ==> fresh(operations[i]) && operations[i].instance == None
    {
      var entries: seq<LazyOperation> := [];
      for k := 0 to |exports|
        invariant |entries| == k
        invariant forall i :: 0 <= i < k ==> fresh(entries[i]) && entries[i].Valid() && entries[i].instance == None
        invariant forall i :: 0 <= i < k ==> entries[i].metadata == exports[i].symbol && entries[i].part == exports[i].part
        invariant forall i, j :: 0 <= i < j < k ==> entries[i] != entries[j]
      {
        var entry := new LazyOperation(exports[k]);
        entries := entries + [entry];
      }
      operations := entries;
      this.exports := exports;
    }

    /** The index of the first character of `s` that is not a digit, or -1. */
    static method FindFirstNonDigit(s: string) returns (fn: int)
      ensures fn == FirstNonDigit(s)
    {
      FirstNonDigitIsFirst(s);
      for i := 0 to |s|
        invariant forall j :: 0 <= j < i ==> IsDigit(s[j])
      {
        if !IsDigit(s[i]) {
          return i;
        }
      }
      return -1;
    }

    /**
     * `Calculate`: the answer is `Evaluate(input, exports)`, and the only
     * entry whose instance may change is the one the operator selects.
     */
    method Calculate(input: string) returns (answer: Answer)
      requires Valid()
      modifies operations
      ensures Valid()
      ensures answer == Evaluate(input, exports)
      ensures forall i :: 0 <= i < |operations| ==>
        operations[i].instance == if i == Forced(input, exports) then Some(operations[i].part) else old(operations[i].instance)
      ensures forall i :: 0 <= i < |operations| && i != Forced(input, exports) ==>
        operations[i].constructions == old(operations[i].constructions)
    {
      var fn := FindFirstNonDigit(input);
      if fn < 0 {
        EvaluateWithoutOperator(input, exports);
        return Text(CouldNotParse);
      }
      var left := Parse(input[..fn]);
      var right := Parse(input[fn + 1..]);
      EvaluateAt(input, exports, fn, left, right);
      if left.None? || right.None? {
        return Text(CouldNotParse);
      }
      var operation := input[fn];
      answer := FindAndOperate(operation, left.value, right.value);
    }

    /**
     * The `foreach` of `Calculate`: the first entry whose metadata is
     * `operation` is forced and applied; the entries before it are looked at
     * through their metadata only, the entries after it not at all.
     */
    method FindAndOperate(operation: char, left: int32, right: int32) returns (answer: Answer)
      requires Valid()
      modifies operations
      ensures Valid()
      ensures answer == Dispatch(exports, Command(left, operation, right))
      ensures forall i :: 0 <= i < |operations| ==>
        operations[i].instance == if i == FirstMatch(exports, operation) then Some(operations[i].part) else old(operations[i].instance)
      ensures forall i :: 0 <= i < |operations| && i != FirstMatch(exports, operation) ==>
        operations[i].constructions == old(operations[i].constructions)
    {
      for k := 0 to |operations|
        invariant Valid()
        invariant forall j :: 0 <= j < k ==> operations[j].metadata != operation
        invariant forall j :: 0 <= j < |operations| ==>
          operations[j].instance == old(operations[j].instance) && operations[j].constructions == old(operations[j].constructions)
      {
        if operations[k].metadata == operation {
          assert FirstMatch(exports, operation) == k;
          var op := operations[k].Value();
          return Render(op.Operate(left, right));
        }
      }
      assert FirstMatch(exports, operation) == -1;
      return Text(NotFound);
    }
  }
}
