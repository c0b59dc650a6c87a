# ExpressionEvaluator in Dafny

A verified model of the C++ expression evaluator `pitchumani/ExpressionEvaluator`:

- the expression tree with its evaluation (`cpp/expression.h`, `cpp/expression.cpp`);
- the tokenizer and the stack-based parser (`cpp/parser.cpp`);
- the prefix-form tree printer (`cpp/ast.cpp`).

The modules are:

- **`Numeric`** (`numeric.dfy`): the C++ integer behaviour the code relies on. It has the `int` range as the subset type `Int32`, the `int64_t` range, and `/` truncating toward zero (`TruncDiv`). `ToInt32` is the modular conversion of a `size_t` to `int`. It also has the decimal text `std::stoi` reads (`DigitsValue`) and `operator<<` writes (`NatText`, `IntText`).
- **`Sequences`** (`sequences.dfy`): two small facts about concatenation and slicing.
- **`Expression`** (`expression.dfy`): the closed hierarchy under `IExpression` becomes the datatype `Expr = Number(Int32) | Binary(Operator, Expr, Expr)`. A thrown `std::runtime_error` becomes a `Failure` result. `GetValue` is `getValue`: a division evaluates its right operand first and fails on 0, and any tag other than `+ - * /` fails with "Unknown operator". It is proved equal to an independent meaning function `Denote` exactly on the trees where that meaning is defined.
- **`Parser`** (`parser.dfy`): `Tokenize` and `Parse` are methods with the loops of `Parser::tokenize` and `Parser::parse`. Each is proved equal to a recursive specification function: `LexFrom`/`LexDiagnosticsFrom` for the tokenizer, and `Step`/`Run`/`Parsed` for the parser. Everything written to `std::cerr`/`std::cout` becomes an ordered log of `Diagnostic` values. An escaping `std::out_of_range` from `std::stoi` becomes `Failure(OutOfRange)`.
- **`ParserCases`** (`parser_cases.dfy`): concrete inputs worked through the parser.
- **`Ast`** (`ast.dfy`): `ASTPrinter` is a class whose field `out` holds the text of the stream it writes to. Its visit methods append to `out`, and each is proved to append exactly `Render` of the visited tree.

### Where the code and its description differ

The model follows the code.

- `parse` is not a precedence-climbing parser. It makes one pass with a stack and only builds `number op number` nodes. An operator whose left operand is a `BinaryNode` is reported and that operand is dropped:
  - `"2+3*4"` yields the leaf `4`;
  - `"2+"` yields the leaf `2`;
  - `""` yields the leaf `0` (the token count), not a failure.
- Parentheses are tokens that `parse` only reports ("Unhandled token"). The tests in `cpp/googletest/test_parser.cpp` expect precedence, nesting and null results. They target a different API (a `Tokenizer` class, other token kinds). They contradict `cpp/parser.cpp` and are not modelled.
- The printer writes prefix form `(op left right)`, not the infix form `(left op right)`.
- `IExpression::getValue` is declared `int` in `cpp/expression.h` but defined `int64_t` in `cpp/expression.cpp`. The model computes in unbounded integers, and `Parser.ParsedValue` proves that every value of a parsed tree fits in 64 bits.

## Model

| member | source | states |
|---|---|---|
| Numeric.TruncDiv | cpp/expression.cpp:28 | the quotient of C++ `/`: the remainder has the sign of the dividend and is smaller than the divisor in magnitude; the quotient is no larger than the dividend in magnitude |
| Numeric.ToInt32 | cpp/parser.cpp:103 | a `size_t` converted to `int` keeps values up to 2^31-1 and otherwise agrees modulo 2^32 |
| Numeric.NatText | cpp/ast.cpp:4 | the decimal text of a natural number is non-empty digits, without a leading zero, denoting that number |
| Numeric.IntText | cpp/ast.cpp:3-5 | the text written for an integer is its digits, with a leading '-' exactly when it is negative, denoting its magnitude, and with no leading zero except in "0" |
| Expression.Get | cpp/expression.h:61-67 | succeeds exactly on `+ - * /`, yielding the arithmetic operator whose input symbol is that character; every other character gives "Unknown operator" |
| Expression.GetInvertsSymbol | cpp/expression.h:61-65 | `get` maps the character of each arithmetic operator back to that operator |
| Expression.GetReachesArithmeticOnly | cpp/expression.h:16-25 | some character yields an operator exactly when it is ADD, SUB, MUL or DIV; SQRT, ABS, SIN and COS are unreachable |
| Expression.TypeName | cpp/expression.h:46-60 | "NumberNode" exactly for leaves, "BinaryNode" exactly for binary nodes |
| Expression.Evaluate | cpp/expression.cpp:3-15 | `evaluate` reports success on every tree: a leaf is true and a node is the conjunction of its children |
| Expression.GetValue | cpp/expression.cpp:8-33 | a successful `getValue` comes from a tree of arithmetic operators only and equals its meaning `Denote`; it never fails with out of range |
| Expression.GetValueMeaning | cpp/expression.cpp:17-33 | `getValue` succeeds exactly when every operator is arithmetic and no divisor means 0, and then equals `Denote`; "Unknown operator" implies a non-arithmetic node, "Divide by zero" a zero divisor, and it never reports out of range |
| Expression.LeafArithmetic | cpp/expression.cpp:18-31 | on two leaves: sum, difference, product, truncated quotient or "Divide by zero", and "Unknown operator" for the other tags |
| Expression.TestVectors | cpp/googletest/test_expression.cpp:14-146 | the values the unit tests check, among them 100000*200000 = 20000000000; where a test only expects some `std::runtime_error`, the lemma names the error: "Divide by zero" on 10/0, and "Unknown operator" on a non-arithmetic tag, for which it uses SQRT because the closed datatype has no tag like the test's `static_cast<Operator>(999)`; two further facts are the model's own, not from the tests: -7/2 = -3, and `evaluate` is true on 10/0 |
| Expression.CreateNumber | cpp/expression.h:72-74 | a leaf reporting "NumberNode" whose value is the argument |
| Expression.CreateBinary | cpp/expression.h:75-79 | a binary node whose operator and children are exactly the arguments |
| Expression.RootEvaluate | cpp/expression.h:32-34 | forwards to the wrapped tree, and is therefore true |
| Expression.RootGetValue | cpp/expression.h:35-37 | forwards to the wrapped tree: it succeeds exactly when that tree's meaning is defined, with that meaning |
| Parser.RunEnd | cpp/parser.cpp:12-15 | the inner loop stops at the first non-digit (or the end) |
| Parser.LexShape | cpp/parser.cpp:6-38 | at most one token per character; NUM tokens are non-empty digit strings; OPR is one of `+ - * /`, BOPEN `(` and BCLOSE `)`; FOPR never occurs |
| Parser.LexOccurs | cpp/parser.cpp:6-38 | each token is the input text at its start position, and tokens come in input order without overlap |
| Parser.LexMaximal | cpp/parser.cpp:10-16 | each NUM token is a maximal run of digits: no digit just before or just after it |
| Parser.LexJoin | cpp/parser.cpp:6-38 | the concatenated token texts equal the input with every character outside `0-9 + - * / ( )` removed |
| Parser.LexDiagnosticsMeaning | cpp/parser.cpp:33-37 | one "Invalid character" message per character that is neither whitespace nor lexical, with that character and its index, in input order |
| Parser.LexParsable | cpp/parser.cpp:10-22 | every token satisfies what the parse loop relies on |
| Parser.ValidCharsNoDiagnostics | cpp/parser.cpp:33-37 | input made of whitespace and lexical characters writes no "Invalid character" message |
| Parser.NoLexicalNoTokens | cpp/parser.cpp:6-38 | input without digits, operators or parentheses yields no tokens |
| Parser.Tokenize | cpp/parser.cpp:3-40 | the tokens and messages of the loop are exactly `LexFrom(input, 0)` and `LexDiagnosticsFrom(input, 0)` |
| Parser.Stoi | cpp/parser.cpp:51 | `std::stoi` on digits: succeeds exactly when the value is at most 2^31-1, with that value; otherwise out of range |
| Parser.StoiReadsNatText | cpp/parser.cpp:84 | `stoi` reads back the decimal text of every non-negative `int` |
| Parser.Step | cpp/parser.cpp:47-94 | one iteration of the parse loop always advances the token index |
| Parser.StepEffect | cpp/parser.cpp:49-93 | a NUM pushes its value; an operator keeps the stack size or shrinks it by one, building `left op right` only from a leaf and a following NUM, discarding the operand otherwise and consuming the next token after a leaf; parentheses leave the stack unchanged |
| Parser.StepLeaf | cpp/parser.cpp:49-53 | a NUM token that fits in an `int` pushes the leaf holding its value |
| Parser.StepNode | cpp/parser.cpp:77-88 | an operator between a leaf and a NUM replaces the leaf by the binary node over both and skips the NUM |
| Parser.StepBadLeft | cpp/parser.cpp:62-70 | an operator after a binary node drops that node and reports "Invalid token 'BinaryNode'" |
| Parser.Final | cpp/parser.cpp:96-103 | what `parse` returns after the loop: the top of a non-empty stack, or else a leaf whose value is the token count whenever that count fits in an `int` |
| Parser.Parse | cpp/parser.cpp:42-104 | the returned tree (or exception) and the messages are exactly `Parsed(input)` |
| Parser.RunKeepsSimple | cpp/parser.cpp:46-95 | the stack only ever holds leaves and arithmetic operators over two leaves |
| Parser.ParsedShape | cpp/parser.cpp:62-88 | every tree `parse` returns has depth at most 1 and only arithmetic operators |
| Parser.ParsedValue | cpp/expression.cpp:17-33 | a parsed tree never fails with "Unknown operator"; it fails with "Divide by zero" exactly when it is a division by the leaf 0; every value fits in 64 bits |
| Parser.RunThrowsIff | cpp/parser.cpp:46-95 | the loop is left by an exception exactly when a remaining NUM token exceeds the `int` range, and that exception is out of range |
| Parser.ParseThrowsIff | cpp/parser.cpp:42-104 | `parse` throws exactly when some NUM token exceeds the `int` range, only with out of range, and otherwise returns a tree, never null |
| Parser.ParseDigits | cpp/parser.cpp:49-53 | a run of digits parses to the leaf of its value, or throws out of range when too large |
| Parser.ParseWithoutTokens | cpp/parser.cpp:96-103 | input without lexical characters parses to the leaf 0 |
| Parser.LexSimpleBinary | cpp/parser.cpp:10-22 | `a op b` tokenizes to NUM, OPR, NUM with no messages |
| Parser.RunSimpleBinary | cpp/parser.cpp:46-90 | the loop over NUM, OPR, NUM leaves exactly the binary node on the stack |
| Parser.ParseSimpleBinary | cpp/parser.cpp:42-104 | `a op b` parses to the binary node of that operator over the two leaves, writing only the token count |
| ParserCases.LexTwoPlusThreeTimesFour | cpp/parser.cpp:6-38 | "2+3*4" tokenizes to five tokens with no messages |
| ParserCases.RunTwoPlusThreeTimesFour | cpp/parser.cpp:62-70 | the loop over those tokens ends with the leaf 4 and one "Invalid token" message |
| ParserCases.ParseTwoPlusThreeTimesFour | cpp/parser.cpp:42-104 | "2+3*4" parses to the leaf 4, with no precedence |
| ParserCases.LexTrailingOperator | cpp/parser.cpp:6-38 | "2+" tokenizes to NUM, OPR with no messages |
| ParserCases.RunTrailingOperator | cpp/parser.cpp:71-76 | the loop over those tokens pushes the leaf 2, then reports the unexpected end and pops it |
| ParserCases.ParseTrailingOperator | cpp/parser.cpp:71-76 | "2+" reports an unexpected end and parses to the leaf 2 (the token count) |
| ParserCases.ParseDivisionByZero | cpp/expression.cpp:22-27 | "10/0" parses to a division node whose value fails with "Divide by zero" |
| ParserCases.ParseEmpty | cpp/parser.cpp:96-103 | empty input parses to the leaf 0 |
| Ast.ASTPrinter.constructor | cpp/ast.h:12 | the printer writes after whatever the stream already holds |
| Ast.ASTPrinter.VisitNumberNode | cpp/ast.cpp:3-5 | appends the decimal text of the leaf's value and nothing else |
| Ast.ASTPrinter.VisitBinaryNode | cpp/ast.cpp:7-13 | appends "(" op " " left " " right ")", which is the rendering of the node |
| Ast.ASTPrinter.Accept | cpp/ast.cpp:9-11 | dispatching on a tree appends exactly its rendering |
| Ast.ASTPrinter.Print | cpp/ast.cpp:15-18 | appends the rendering and exactly one newline; earlier text is unchanged |
| Ast.Render | cpp/ast.cpp:3-13 | the text the printer writes for a tree: a leaf as its decimal text; a binary node starting with "(", its operator text and a space, and ending with ")" |
| Ast.RenderBalanced | cpp/ast.cpp:7-13 | when no operator text contains a parenthesis, the rendering is balanced and has one "(" per binary node |
| Ast.RenderLeafHasNoParens | cpp/ast.cpp:3-5 | a leaf renders without parentheses |
| Ast.RenderShape | cpp/ast.cpp:3-13 | a leaf renders as its decimal text; a binary node's text starts with "(" and ends with ")" |
| Ast.RenderSimpleSum | cpp/ast.cpp:7-13 | the tree of "2+3" renders as "(" op " 2 3)" |

## Left out

- `cpp/main.cpp`: the read loop, `getline` and the command-line flags are console I/O.
- `cpp/visitor.h`: an interface whose two visitor classes have empty bodies. `Ast.ASTPrinter.Accept` is the double dispatch.
- Output streams: `std::cerr`/`std::cout` text is a log of `Diagnostic` values, not formatted characters. The printer's stream is the string field `out`.
- Memory: `unique_ptr` moves, `release()` and the raw `new` in `parse` are not modelled, because trees are immutable values.
- `dynamic_cast` and `to<T>()`: these are replaced by pattern matching on the datatype.
- The evaluation order of the operands of `+ - *` is unspecified in C++. The model evaluates the left operand first. This only decides which failure is reported when both operands fail.
- `Expression.GetValue`: does not model signed 64-bit overflow, which is undefined behaviour in C++. It computes in unbounded integers, and `Parser.ParsedValue` shows that trees the parser builds cannot overflow.
- `Expression.Evaluate`: the tests at `cpp/googletest/test_expression.cpp:100-124` override `evaluate` in a subclass (`FailingNode`). A closed datatype has no such subclass, so those two tests are not modelled.
- `RootNode` does not override `getTypeName` and is therefore abstract in C++. It is modelled as a wrapper with its two forwarding operations.
- `getOperator()`, `accept` and the access to `left`/`right` used by `cpp/ast.cpp` are not declared in `cpp/expression.h`. The operator text is a parameter `opText` of the printer.
- `std::isspace`/`std::isdigit` are modelled for ASCII characters in the "C" locale. Other locales and negative `char` values are not modelled.
- `Parser.Parse`: when `stoi` or `get` throws, the model returns the messages written so far together with the failure. In C++ the exception leaves `parse`, and those messages are already on the console.
- `cpp/googletest/test_parser.cpp`, `cpp/googletest/test_parser.h` and `cpp/googletest/test_expression.h` target declarations that do not exist in the sources (a `Tokenizer` class, `print` on nodes, other token kinds). They contradict `cpp/parser.cpp`.
