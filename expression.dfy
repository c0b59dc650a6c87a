/** The expression tree of the evaluator, its evaluation and its values
    (cpp/expression.h and cpp/expression.cpp). The C++ class hierarchy
    under `IExpression` becomes a closed datatype; exceptions thrown by
    `getValue` and `get` become `Failure` results. */
module Expression {
  import opened Numeric

  /** All eight tags of `enum class Operator`; only the first four have an
      arithmetic meaning. */
  datatype Operator = ADD | SUB | MUL | DIV | SQRT | ABS | SIN | COS

  /** `NumberNode` holds a C++ `int`; `BinaryNode` owns its two children. */
  datatype Expr =
    | Number(value: Int32)
    | Binary(op: Operator, left: Expr, right: Expr)

  /** The `std::runtime_error`s of the core ("Divide by zero", "Unknown
      operator") and the `std::out_of_range` that `std::stoi` throws. */
  datatype Error = DivideByZero | UnknownOperator | OutOfRange

  datatype Result<T> = Success(value: T) | Failure(error: Error)

  predicate IsArithmetic(op: Operator) {
    op == ADD || op == SUB || op == MUL || op == DIV
  }

  /** The character that names an arithmetic operator in the input. */
  function Symbol(op: Operator): char
    requires IsArithmetic(op)
  {
    match op
    case ADD => '+'
    case SUB => '-'
    case MUL => '*'
    case DIV => '/'
  }

  /** `BinaryNode::get`: the operator a character names. */
  function Get(c: char): (r: Result<Operator>)
    ensures r.Success? <==> c in "+-*/"
    ensures r.Success? ==> IsArithmetic(r.value) && Symbol(r.value) == c
    ensures r.Failure? ==> r.error == UnknownOperator
  {
    if c == '+' then Success(ADD)
    else if c == '-' then Success(SUB)
    else if c == '*' then Success(MUL)
    else if c == '/' then Success(DIV)
    else Failure(UnknownOperator)
  }

  /** `get` is the inverse of Symbol on the arithmetic operators. */
  lemma GetInvertsSymbol(op: Operator)
    requires IsArithmetic(op)
    ensures Get(Symbol(op)) == Success(op)
  {
  }

  /** Exactly the four arithmetic tags can come out of `get`: SQRT, ABS, SIN
      and COS are unreachable from any character. */
  lemma GetReachesArithmeticOnly(op: Operator)
    ensures (exists c :: Get(c) == Success(op)) <==> IsArithmetic(op)
  {
    if IsArithmetic(op) {
      GetInvertsSymbol(op);
    }
  }

  /** `getTypeName`. */
  function TypeName(e: Expr): (r: string)
    ensures r == "NumberNode" <==> e.Number?
    ensures r == "BinaryNode" <==> e.Binary?
  {
    match e
    case Number(_) => "NumberNode"
    case Binary(_, _, _) => "BinaryNode"
  }

  /** `evaluate`: a leaf reports success, a binary node reports whether both
      children did; so every tree reports success. */
  function Evaluate(e: Expr): (ok: bool)
    ensures ok
  {
    match e
    case Number(_) => true
    case Binary(_, l, r) => Evaluate(l) && Evaluate(r)
  }

  /** `getValue`, in exact integer arithmetic. A division evaluates its right
      operand first and fails when it is 0; a non-arithmetic tag fails without
      evaluating its children; any failure of a child is passed up. */
  function GetValue(e: Expr): (r: Result<int>)
    ensures r.Success? ==> AllArithmetic(e) && r.value == Denote(e)
    ensures r != Failure(OutOfRange)
  {
    match e
    case Number(v) => Success(v)
    case Binary(op, l, r) =>
      if op == DIV then
        var rv := GetValue(r);
        if rv.Failure? then rv
        else if rv.value == 0 then Failure(DivideByZero)
        else
          var lv := GetValue(l);
          if lv.Failure? then lv else Success(TruncDiv(lv.value, rv.value))
      else if IsArithmetic(op) then
        var lv := GetValue(l);
        if lv.Failure? then lv
        else
          var rv := GetValue(r);
          if rv.Failure? then rv
          else if op == ADD then Success(lv.value + rv.value)
          else if op == SUB then Success(lv.value - rv.value)
          else Success(lv.value * rv.value)
      else Failure(UnknownOperator)
  }

  /** The arithmetic meaning of a tree, ignoring failures (a non-arithmetic
      node and a division by zero mean 0 here; Defined rules them out). */
  function Denote(e: Expr): int {
    match e
    case Number(v) => v
    case Binary(op, l, r) =>
      var a, b := Denote(l), Denote(r);
      match op
      case ADD => a + b
      case SUB => a - b
      case MUL => a * b
      case DIV => if b == 0 then 0 else TruncDiv(a, b)
      case _ => 0
  }

  /** Every binary node carries one of the four arithmetic operators. */
  predicate AllArithmetic(e: Expr) {
    match e
    case Number(_) => true
    case Binary(op, l, r) => IsArithmetic(op) && AllArithmetic(l) && AllArithmetic(r)
  }

  /** No division node has a right operand that means 0. */
  predicate ZeroDivisorFree(e: Expr) {
    match e
    case Number(_) => true
    case Binary(op, l, r) =>
      (op == DIV ==> Denote(r) != 0) && ZeroDivisorFree(l) && ZeroDivisorFree(r)
  }

  predicate Defined(e: Expr) {
    AllArithmetic(e) && ZeroDivisorFree(e)
  }

  /** `getValue` succeeds exactly on the trees whose meaning is defined, and
      then yields that meaning; an "Unknown operator" failure comes from a
      non-arithmetic node, a "Divide by zero" failure from a division by a
      subtree meaning 0, and `getValue` never reports an out-of-range error. */
  lemma {:induction false} GetValueMeaning(e: Expr)
    ensures GetValue(e).Success? <==> Defined(e)
    ensures GetValue(e).Success? ==> GetValue(e).value == Denote(e)
    ensures GetValue(e) == Failure(UnknownOperator) ==> !AllArithmetic(e)
    ensures GetValue(e) == Failure(DivideByZero) ==> !ZeroDivisorFree(e)
    ensures GetValue(e) != Failure(OutOfRange)
  {
    match e
    case Number(_) =>
    case Binary(op, l, r) =>
      GetValueMeaning(l);
      GetValueMeaning(r);
  }

  /** The four arithmetic operators on two leaves, and the two failures. */
  lemma LeafArithmetic(op: Operator, a: Int32, b: Int32)
    ensures var v := GetValue(Binary(op, Number(a), Number(b)));
      && (op == ADD ==> v == Success(a + b))
      && (op == SUB ==> v == Success(a - b))
      && (op == MUL ==> v == Success(a * b))
      && (op == DIV ==> v == if b == 0 then Failure(DivideByZero) else Success(TruncDiv(a, b)))
      && (!IsArithmetic(op) ==> v == Failure(UnknownOperator))
  {
  }

  /** The values checked by cpp/googletest/test_expression.cpp, as facts about
      the model. Where a test only expects some `std::runtime_error`, the
      error is named here; the unknown-operator test casts 999 to `Operator`,
      which the closed datatype cannot hold, so SQRT stands for it. Two facts
      are the model's own: -7 / 2 truncates to -3, and `evaluate` is true on
      a division by 0. */
  lemma TestVectors()
    ensures Evaluate(Number(42)) && GetValue(Number(123)) == Success(123)
    ensures GetValue(Number(-42)) == Success(-42)
    ensures GetValue(Binary(ADD, Number(10), Number(5))) == Success(15)
    ensures GetValue(Binary(SUB, Number(10), Number(5))) == Success(5)
    ensures GetValue(Binary(MUL, Number(3), Number(4))) == Success(12)
    ensures GetValue(Binary(DIV, Number(20), Number(4))) == Success(5)
    ensures GetValue(Binary(DIV, Number(-7), Number(2))) == Success(-3)
    ensures GetValue(Binary(DIV, Number(10), Number(0))) == Failure(DivideByZero)
    ensures Evaluate(Binary(DIV, Number(10), Number(0)))
    ensures GetValue(Binary(SQRT, Number(1), Number(2))) == Failure(UnknownOperator)
    ensures GetValue(Binary(MUL, Binary(ADD, Number(2), Number(3)), Number(4))) == Success(20)
    ensures GetValue(Binary(ADD, Number(0), Number(0))) == Success(0)
    ensures GetValue(Binary(MUL, Number(100000), Number(200000))) == Success(20000000000)
  {
    assert TruncDiv(20, 4) == 5;
    assert TruncDiv(-7, 2) == -3;
  }

  /** `ExpressionFactory::createNumber`: a leaf that evaluates, holds the
      given value and reports itself as a NumberNode. */
  function CreateNumber(v: Int32): (r: Expr)
    ensures r.Number? && TypeName(r) == "NumberNode"
    ensures Evaluate(r) && GetValue(r) == Success(v)
  {
    Number(v)
  }

  /** `ExpressionFactory::createBinary`: a BinaryNode whose operator and
      children are exactly the arguments. */
  function CreateBinary(op: Operator, left: Expr, right: Expr): (r: Expr)
    ensures TypeName(r) == "BinaryNode"
    ensures r.op == op && r.left == left && r.right == right
    ensures Evaluate(r) == (Evaluate(left) && Evaluate(right))
  {
    Binary(op, left, right)
  }

  /** `RootNode`, a wrapper that forwards to the expression it holds. */
  datatype RootNode = RootNode(root: Expr)

  /** `RootNode::evaluate` forwards to the wrapped tree, so it is true. */
  function RootEvaluate(n: RootNode): (r: bool)
    ensures r == Evaluate(n.root) && r
  {
    Evaluate(n.root)
  }

  /** `RootNode::getValue` forwards to the wrapped tree: it succeeds exactly
      when that tree's meaning is defined, with that meaning. */
  function RootGetValue(n: RootNode): (r: Result<int>)
    ensures r == GetValue(n.root)
    ensures r.Success? <==> Defined(n.root)
    ensures r.Success? ==> r.value == Denote(n.root)
  {
    GetValueMeaning(n.root);
    GetValue(n.root)
  }

  /** The height of a tree: 0 for a leaf. */
  function Depth(e: Expr): nat {
    match e
    case Number(_) => 0
    case Binary(_, l, r) => 1 + (if Depth(l) < Depth(r) then Depth(r) else Depth(l))
  }

  function BinaryCount(e: Expr): nat {
    match e
    case Number(_) => 0
    case Binary(_, l, r) => 1 + BinaryCount(l) + BinaryCount(r)
  }
}
