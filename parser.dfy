/** The tokenizer and the stack-based parser of cpp/parser.cpp.

    `Parser::tokenize` is a cursor loop over the input; `Parser::parse` is a
    single left-to-right pass over the tokens with a stack of expressions.
    Both are written below as methods with loops, each proved equal to a
    recursive specification function (LexFrom, LexDiagnosticsFrom, Run);
    the properties of the parser are lemmas about those functions.

    What the code writes to `std::cerr` and `std::cout` is collected, in
    order, as a log of Diagnostic values. */
module Parser {
  import opened Numeric
  import opened Expression
  import opened Sequences

  /** `Token::Type`. FOPR is declared but never produced. */
  datatype TokenType = NUM | OPR | FOPR | BOPEN | BCLOSE

  datatype Token = Token(value: string, kind: TokenType)

  /** The messages of parser.cpp, by the line that writes them. */
  datatype Diagnostic =
    | InvalidCharacter(c: char, index: nat)          // "Invalid character 'c' at index i"
    | FoundTokens(count: nat)                         // "Found n tokens!"
    | InvalidOperatorToken(op: string)                // operator with an empty stack
    | InvalidLeftOperand(typeName: string, op: string) // operator after a BinaryNode
    | UnexpectedEnd(op: string)                       // operator at the end of the input
    | InvalidRightOperand(next: string, op: string)   // operator not followed by a number
    | UnhandledToken(value: string)                   // a parenthesis (or FOPR)

  /** `std::isspace` in the "C" locale. */
  predicate IsSpace(c: char) {
    c == ' ' || c == '\t' || c == '\n' || c == '\r' || c == '\U{000B}' || c == '\U{000C}'
  }

  predicate IsOpChar(c: char) {
    c == '+' || c == '-' || c == '*' || c == '/'
  }

  /** The characters that end up in some token. */
  predicate IsLexical(c: char) {
    IsDigit(c) || IsOpChar(c) || c == '(' || c == ')'
  }

  /** What a token produced by the tokenizer looks like. */
  predicate WellFormedToken(t: Token) {
    match t.kind
    case NUM => |t.value| > 0 && AllDigits(t.value)
    case OPR => |t.value| == 1 && IsOpChar(t.value[0])
    case BOPEN => t.value == "("
    case BCLOSE => t.value == ")"
    case FOPR => false
  }

  predicate WellFormed(tokens: seq<Token>) {
    forall k :: 0 <= k < |tokens| ==> WellFormedToken(tokens[k])
  }

  /** What the loop of `Parser::parse` relies on: `stoi` is applied to
      digits only, and an operator token has a first character. */
  predicate ParsableToken(t: Token) {
    && (t.kind == NUM ==> |t.value| > 0 && AllDigits(t.value))
    && (t.kind == OPR ==> |t.value| > 0)
  }

  predicate Parsable(tokens: seq<Token>) {
    forall k :: 0 <= k < |tokens| ==> ParsableToken(tokens[k])
  }

  // ---------------------------------------------------------------------
  // Tokenizer

  /** The end of the run of digits that starts at i: every character before
      it is a digit and the character at it (if any) is not. */
  function RunEnd(s: string, i: nat): (j: nat)
    requires i <= |s|
    ensures i <= j <= |s|
    ensures forall k :: i <= k < j ==> IsDigit(s[k])
    ensures j < |s| ==> !IsDigit(s[j])
    decreases |s| - i
  {
    if i < |s| && IsDigit(s[i]) then RunEnd(s, i + 1) else i
  }

  /** The tokens of s from position i on: whitespace and characters outside
      the lexical set are skipped, a maximal run of digits is one NUM token,
      and every operator and parenthesis is a token of its own. */
  function LexFrom(s: string, i: nat): seq<Token>
    requires i <= |s|
    decreases |s| - i
  {
    if i == |s| then []
    else if IsSpace(s[i]) then LexFrom(s, i + 1)
    else if IsDigit(s[i]) then
      var j := RunEnd(s, i);
      [Token(s[i..j], NUM)] + LexFrom(s, j)
    else if IsOpChar(s[i]) then [Token([s[i]], OPR)] + LexFrom(s, i + 1)
    else if s[i] == '(' then [Token("(", BOPEN)] + LexFrom(s, i + 1)
    else if s[i] == ')' then [Token(")", BCLOSE)] + LexFrom(s, i + 1)
    else LexFrom(s, i + 1)
  }

  /** Where each token of LexFrom(s, i) starts in s. */
  function LexStarts(s: string, i: nat): (r: seq<nat>)
    requires i <= |s|
    decreases |s| - i
  {
    if i == |s| then []
    else if IsSpace(s[i]) then LexStarts(s, i + 1)
    else if IsDigit(s[i]) then [i] + LexStarts(s, RunEnd(s, i))
    else if IsLexical(s[i]) then [i] + LexStarts(s, i + 1)
    else LexStarts(s, i + 1)
  }

  /** The "Invalid character" messages for s from position i on: one per
      character that is neither whitespace nor lexical, with its index. */
  function LexDiagnosticsFrom(s: string, i: nat): seq<Diagnostic>
    requires i <= |s|
    decreases |s| - i
  {
    if i == |s| then []
    else if !IsSpace(s[i]) && !IsLexical(s[i]) then
      [InvalidCharacter(s[i], i)] + LexDiagnosticsFrom(s, i + 1)
    else LexDiagnosticsFrom(s, i + 1)
  }

  /** At most one token per character, and every token is well formed: a
      NUM is a non-empty string of digits, an OPR one of + - * /, BOPEN and
      BCLOSE the parentheses, and FOPR never occurs. */
  lemma {:induction false} LexShape(s: string, i: nat)
    requires i <= |s|
    ensures |LexFrom(s, i)| <= |s| - i
    ensures WellFormed(LexFrom(s, i))
    decreases |s| - i
  {
    if i < |s| {
      if IsSpace(s[i]) {
        LexShape(s, i + 1);
      } else if IsDigit(s[i]) {
        var j := RunEnd(s, i);
        LexShape(s, j);
        var t := Token(s[i..j], NUM);
        assert WellFormedToken(t);
        assert LexFrom(s, i) == [t] + LexFrom(s, j);
      } else {
        LexShape(s, i + 1);
      }
    }
  }

  /** The tokens satisfy what the parse loop relies on. */
  lemma LexParsable(s: string, i: nat)
    requires i <= |s|
    ensures Parsable(LexFrom(s, i))
  {
    LexShape(s, i);
    var ts := LexFrom(s, i);
    forall k | 0 <= k < |ts| ensures ParsableToken(ts[k]) {
      assert WellFormedToken(ts[k]);
    }
  }

  /** Token t occurs in s at position p. */
  predicate OccursAt(s: string, t: Token, p: nat) {
    p + |t.value| <= |s| && s[p..p + |t.value|] == t.value
  }

  /** The digits from p up to e cannot be extended on either side (p may be
      the position i where the scan began). */
  predicate MaximalRun(s: string, i: nat, p: nat, e: nat) {
    (e == |s| || (e < |s| && !IsDigit(s[e]))) && (p == i || (0 < p <= |s| && !IsDigit(s[p - 1])))
  }

  /** The first token LexFrom(s, i) produces when s[i] is lexical, and the
      position after it. */
  function HeadToken(s: string, i: nat): (t: Token)
    requires i < |s| && IsLexical(s[i])
  {
    if IsDigit(s[i]) then Token(s[i..RunEnd(s, i)], NUM)
    else if IsOpChar(s[i]) then Token([s[i]], OPR)
    else if s[i] == '(' then Token("(", BOPEN)
    else Token(")", BCLOSE)
  }

  function NextStart(s: string, i: nat): (j: nat)
    requires i < |s|
    ensures i < j <= |s|
  {
    if IsDigit(s[i]) then RunEnd(s, i) else i + 1
  }

  lemma LexUnfold(s: string, i: nat)
    requires i < |s|
    ensures !IsSpace(s[i]) && IsLexical(s[i]) ==>
      && LexFrom(s, i) == [HeadToken(s, i)] + LexFrom(s, NextStart(s, i))
      && LexStarts(s, i) == [i] + LexStarts(s, NextStart(s, i))
      && OccursAt(s, HeadToken(s, i), i) && i + |HeadToken(s, i).value| == NextStart(s, i)
    ensures IsSpace(s[i]) || !IsLexical(s[i]) ==>
      LexFrom(s, i) == LexFrom(s, i + 1) && LexStarts(s, i) == LexStarts(s, i + 1)
  {
  }

  lemma {:induction false} LexStartsLength(s: string, i: nat)
    requires i <= |s|
    ensures |LexStarts(s, i)| == |LexFrom(s, i)|
    decreases |s| - i
  {
    if i < |s| {
      LexUnfold(s, i);
      LexStartsLength(s, NextStart(s, i));
    }
  }

  /** Each token is the text of the input at its start position, and the
      tokens appear in input order without overlapping. */
  lemma {:induction false} LexOccurs(s: string, i: nat)
    requires i <= |s|
    ensures |LexStarts(s, i)| == |LexFrom(s, i)|
    ensures var ts, ps := LexFrom(s, i), LexStarts(s, i);
      && (forall k :: 0 <= k < |ts| ==> i <= ps[k] && OccursAt(s, ts[k], ps[k]))
      && (forall k :: 0 < k < |ts| ==> ps[k - 1] + |ts[k - 1].value| <= ps[k])
    decreases |s| - i
  {
    LexStartsLength(s, i);
    if i < |s| {
      var j := NextStart(s, i);
      LexUnfold(s, i);
      LexOccurs(s, j);
      if IsSpace(s[i]) || !IsLexical(s[i]) {
        LexOccurs(s, i + 1);
      } else {
        LexStartsLength(s, j);
        var ts, ps := LexFrom(s, j), LexStarts(s, j);
        var t := HeadToken(s, i);
        assert |ts| > 0 ==> j <= ps[0];
      }
    }
  }

  /** Every NUM token among ts, found at the matching position of ps, is a
      maximal run of digits for a scan that began at i. */
  predicate NumsMaximal(s: string, i: nat, ts: seq<Token>, ps: seq<nat>) {
    && |ts| == |ps|
    && forall k :: 0 <= k < |ts| && ts[k].kind == NUM ==>
         MaximalRun(s, i, ps[k], ps[k] + |ts[k].value|)
  }

  /** Every NUM token is a maximal run of digits: the characters just
      before and just after it are not digits (p == i allows the token to
      start where the scan began). */
  lemma {:induction false} LexMaximal(s: string, i: nat)
    requires i <= |s|
    ensures NumsMaximal(s, i, LexFrom(s, i), LexStarts(s, i))
    decreases |s| - i
  {
    LexStartsLength(s, i);
    if i < |s| {
      var j := NextStart(s, i);
      LexUnfold(s, i);
      LexMaximal(s, j);
      LexOccurs(s, j);
      LexShape(s, j);
      MaximalRebase(s, i, LexFrom(s, j), LexStarts(s, j));
      if !IsSpace(s[i]) && IsLexical(s[i]) {
        MaximalCons(s, i, LexFrom(s, j), LexStarts(s, j));
      }
    }
  }

  /** The maximal runs found by the scan from NextStart(s, i) stay maximal
      for the scan from i. */
  lemma MaximalRebase(s: string, i: nat, ts: seq<Token>, ps: seq<nat>)
    requires i < |s| && NumsMaximal(s, NextStart(s, i), ts, ps) && WellFormed(ts)
    requires forall k :: 0 <= k < |ts| ==> NextStart(s, i) <= ps[k] && OccursAt(s, ts[k], ps[k])
    ensures NumsMaximal(s, i, ts, ps)
  {
    forall k | 0 <= k < |ts| && ts[k].kind == NUM
      ensures MaximalRun(s, i, ps[k], ps[k] + |ts[k].value|)
    {
      assert WellFormedToken(ts[k]);
      MaximalStep(s, i, ts[k], ps[k]);
    }
  }

  /** Putting the token at i in front keeps every NUM token maximal. */
  lemma MaximalCons(s: string, i: nat, ts: seq<Token>, ps: seq<nat>)
    requires i < |s| && !IsSpace(s[i]) && IsLexical(s[i]) && NumsMaximal(s, i, ts, ps)
    ensures NumsMaximal(s, i, [HeadToken(s, i)] + ts, [i] + ps)
  {
    var t := HeadToken(s, i);
    var ts', ps' := [t] + ts, [i] + ps;
    if IsDigit(s[i]) {
      assert MaximalRun(s, i, i, RunEnd(s, i));
    }
    forall k | 0 < k < |ts'| && ts'[k].kind == NUM
      ensures MaximalRun(s, i, ps'[k], ps'[k] + |ts'[k].value|)
    {
      assert ts'[k] == ts[k - 1] && ps'[k] == ps[k - 1];
    }
  }

  /** A later NUM token that is maximal for the scan from NextStart(s, i) is
      maximal for the scan from i. */
  lemma MaximalStep(s: string, i: nat, t: Token, p: nat)
    requires i < |s| && NextStart(s, i) <= p
    requires t.kind == NUM && WellFormedToken(t) && OccursAt(s, t, p)
    requires MaximalRun(s, NextStart(s, i), p, p + |t.value|)
    ensures MaximalRun(s, i, p, p + |t.value|)
  {
    assert s[p] == t.value[0];
  }

  /** The concatenation of the token texts. */
  function Join(ts: seq<Token>): string {
    if ts == [] then [] else ts[0].value + Join(ts[1..])
  }

  /** The input with every character outside 0-9 + - * / ( ) removed. */
  function Filter(s: string): string {
    if s == [] then [] else (if IsLexical(s[0]) then [s[0]] else []) + Filter(s[1..])
  }

  lemma {:induction false} FilterDigits(s: string, i: nat, j: nat)
    requires i <= j <= |s|
    requires forall k :: i <= k < j ==> IsDigit(s[k])
    ensures Filter(s[i..]) == s[i..j] + Filter(s[j..])
    decreases j - i
  {
    if i < j {
      FilterDigits(s, i + 1, j);
      assert s[i..][1..] == s[i + 1..];
      assert [s[i]] + s[i + 1..j] == s[i..j];
    }
  }

  /** Joining the token texts gives back the input with whitespace and
      invalid characters removed: nothing else is lost, added or reordered. */
  lemma {:induction false} LexJoin(s: string, i: nat)
    requires i <= |s|
    ensures Join(LexFrom(s, i)) == Filter(s[i..])
    decreases |s| - i
  {
    if i < |s| {
      var j := if IsDigit(s[i]) then RunEnd(s, i) else i + 1;
      LexJoin(s, j);
      if IsDigit(s[i]) {
        FilterDigits(s, i, j);
        var t := Token(s[i..j], NUM);
        assert LexFrom(s, i) == [t] + LexFrom(s, j);
        assert ([t] + LexFrom(s, j))[1..] == LexFrom(s, j);
      } else {
        assert s[i..][1..] == s[i + 1..];
        if IsLexical(s[i]) {
          var t := if IsOpChar(s[i]) then Token([s[i]], OPR)
            else if s[i] == '(' then Token("(", BOPEN) else Token(")", BCLOSE);
          assert LexFrom(s, i) == [t] + LexFrom(s, j);
          assert ([t] + LexFrom(s, j))[1..] == LexFrom(s, j);
        }
      }
    }
  }

  /** There is one "Invalid character" message per character that is
      neither whitespace nor lexical, in input order, each naming the
      character and its index. */
  lemma {:induction false} LexDiagnosticsMeaning(s: string, i: nat)
    requires i <= |s|
    ensures var ds := LexDiagnosticsFrom(s, i);
      && (forall k :: 0 <= k < |ds| ==>
            ds[k].InvalidCharacter? && i <= ds[k].index < |s| && s[ds[k].index] == ds[k].c
            && !IsSpace(ds[k].c) && !IsLexical(ds[k].c))
      && (forall k :: 0 < k < |ds| ==> ds[k - 1].index < ds[k].index)
      && (forall p :: i <= p < |s| && !IsSpace(s[p]) && !IsLexical(s[p]) ==>
            InvalidCharacter(s[p], p) in ds)
    decreases |s| - i
  {
    if i < |s| {
      LexDiagnosticsMeaning(s, i + 1);
      var rest := LexDiagnosticsFrom(s, i + 1);
      if !IsSpace(s[i]) && !IsLexical(s[i]) {
        var ds := [InvalidCharacter(s[i], i)] + rest;
        assert LexDiagnosticsFrom(s, i) == ds;
        forall k | 0 < k < |ds| ensures ds[k] == rest[k - 1] {
        }
        assert InvalidCharacter(s[i], i) == ds[0];
      } else {
        assert LexDiagnosticsFrom(s, i) == rest;
      }
    }
  }

  /** How the lexer specification unfolds at one position, case by case. */
  lemma LexAt(s: string, i: nat)
    requires i < |s|
    ensures IsSpace(s[i]) || !IsLexical(s[i]) ==> LexFrom(s, i) == LexFrom(s, i + 1)
    ensures IsSpace(s[i]) || IsLexical(s[i]) ==> LexDiagnosticsFrom(s, i) == LexDiagnosticsFrom(s, i + 1)
    ensures !IsSpace(s[i]) && !IsLexical(s[i]) ==>
      LexDiagnosticsFrom(s, i) == [InvalidCharacter(s[i], i)] + LexDiagnosticsFrom(s, i + 1)
    ensures IsDigit(s[i]) ==>
      && RunEnd(s, i) == RunEnd(s, i + 1)
      && LexFrom(s, i) == [Token(s[i..RunEnd(s, i)], NUM)] + LexFrom(s, RunEnd(s, i))
    ensures IsOpChar(s[i]) ==> LexFrom(s, i) == [Token([s[i]], OPR)] + LexFrom(s, i + 1)
    ensures s[i] == '(' ==> LexFrom(s, i) == [Token([s[i]], BOPEN)] + LexFrom(s, i + 1)
    ensures s[i] == ')' ==> LexFrom(s, i) == [Token([s[i]], BCLOSE)] + LexFrom(s, i + 1)
  {
    if s[i] == '(' {
      assert [s[i]] == "(";
    } else if s[i] == ')' {
      assert [s[i]] == ")";
    }
  }

  /** `Parser::tokenize`. */
  method Tokenize(input: string) returns (tokens: seq<Token>, log: seq<Diagnostic>)
    ensures tokens == LexFrom(input, 0)
    ensures log == LexDiagnosticsFrom(input, 0)
  {
    tokens, log := [], [];
    var idx := 0;
    while idx < |input|
      invariant idx <= |input|
      invariant tokens + LexFrom(input, idx) == LexFrom(input, 0)
      invariant log + LexDiagnosticsFrom(input, idx) == LexDiagnosticsFrom(input, 0)
      decreases |input| - idx
    {
      var c := input[idx];
      LexAt(input, idx);
      if IsSpace(c) {
        idx := idx + 1;
      } else if IsDigit(c) {
        var start := idx;
        var numstr := "";
        // the C++ loop tests the character before it checks the index; at the
        // end of the string it reads the terminating '\0', which is not a digit
        while idx < |input| && IsDigit(input[idx])
          invariant start <= idx <= |input|
          invariant numstr == input[start..idx]
          invariant RunEnd(input, start) == RunEnd(input, idx)
          invariant LexDiagnosticsFrom(input, start) == LexDiagnosticsFrom(input, idx)
          decreases |input| - idx
        {
          SliceSnoc(input, start, idx);
          LexAt(input, idx);
          numstr := numstr + [input[idx]];
          idx := idx + 1;
        }
        ConcatAssoc(tokens, [Token(numstr, NUM)], LexFrom(input, idx));
        tokens := tokens + [Token(numstr, NUM)];
      } else if IsOpChar(c) {
        ConcatAssoc(tokens, [Token([c], OPR)], LexFrom(input, idx + 1));
        tokens := tokens + [Token([c], OPR)];
        idx := idx + 1;
      } else if c == '(' {
        ConcatAssoc(tokens, [Token([c], BOPEN)], LexFrom(input, idx + 1));
        tokens := tokens + [Token([c], BOPEN)];
        idx := idx + 1;
      } else if c == ')' {
        ConcatAssoc(tokens, [Token([c], BCLOSE)], LexFrom(input, idx + 1));
        tokens := tokens + [Token([c], BCLOSE)];
        idx := idx + 1;
      } else {
        ConcatAssoc(log, [InvalidCharacter(c, idx)], LexDiagnosticsFrom(input, idx + 1));
        log := log + [InvalidCharacter(c, idx)];
        idx := idx + 1;
      }
    }
  }

  // ---------------------------------------------------------------------
  // Parser

  /** `std::stoi` on a non-empty string of digits: its decimal value, or the
      `std::out_of_range` exception when that does not fit in an `int`. */
  function Stoi(digits: string): (r: Result<Int32>)
    requires |digits| > 0 && AllDigits(digits)
    ensures r.Success? <==> DigitsValue(digits) <= MaxInt32
    ensures r.Success? ==> r.value == DigitsValue(digits)
    ensures r.Failure? ==> r.error == OutOfRange
  {
    var v := DigitsValue(digits);
    if v <= MaxInt32 then Success(v) else Failure(OutOfRange)
  }

  /** `stoi` reads back the decimal text of every `int` value that is not
      negative. */
  lemma StoiReadsNatText(n: nat)
    requires n <= MaxInt32
    ensures Stoi(NatText(n)) == Success(n)
  {
  }

  /** The state of the loop in `Parser::parse`: the index of the next token,
      the expression stack (its top last) and the messages written so far. */
  datatype State = State(idx: nat, stack: seq<Expr>, log: seq<Diagnostic>)

  /** The loop either runs to its end or is left by an exception, with the
      messages written before it. */
  datatype RunResult = Done(state: State) | Threw(error: Error, log: seq<Diagnostic>)

  /** One iteration of the loop in `Parser::parse`, for the token at st.idx,
      including the `++idx` of the `for` statement. */
  function Step(tokens: seq<Token>, st: State): (r: Result<State>)
    requires Parsable(tokens) && st.idx < |tokens|
    ensures r.Success? ==> st.idx < r.value.idx
  {
    var token := tokens[st.idx];
    var stack, log := st.stack, st.log;
    match token.kind
    case NUM =>
      var v := Stoi(token.value);
      if v.Failure? then Failure(v.error)
      else Success(State(st.idx + 1, stack + [CreateNumber(v.value)], log))
    case OPR =>
      if stack == [] then
        Success(State(st.idx + 1, stack, log + [InvalidOperatorToken(token.value)]))
      else
        var left, rest := stack[|stack| - 1], stack[..|stack| - 1];
        if !left.Number? then
          Success(State(st.idx + 1, rest, log + [InvalidLeftOperand(TypeName(left), token.value)]))
        else if st.idx + 1 >= |tokens| then
          Success(State(st.idx + 2, rest, log + [UnexpectedEnd(token.value)]))
        else
          var next := tokens[st.idx + 1];
          if next.kind != NUM then
            Success(State(st.idx + 2, rest, log + [InvalidRightOperand(next.value, token.value)]))
          else
            var rv := Stoi(next.value);
            if rv.Failure? then Failure(rv.error)
            else
              var op := Get(token.value[0]);
              if op.Failure? then Failure(op.error)
              else Success(State(st.idx + 2, rest + [CreateBinary(op.value, left, CreateNumber(rv.value))], log))
    case _ =>
      Success(State(st.idx + 1, stack, log + [UnhandledToken(token.value)]))
  }

  /** The loop of `Parser::parse` from state st to its end. */
  function Run(tokens: seq<Token>, st: State): RunResult
    requires Parsable(tokens)
    decreases |tokens| - st.idx
  {
    if st.idx >= |tokens| then Done(st)
    else
      match Step(tokens, st)
      case Failure(e) => Threw(e, st.log)
      case Success(next) => Run(tokens, next)
  }

  /** What `parse` returns once the loop is over: the top of the stack, or a
      leaf holding the number of tokens (converted to `int`) when the stack
      is empty. */
  function Final(stack: seq<Expr>, count: nat): (r: Expr)
    ensures stack != [] ==> r == stack[|stack| - 1]
    ensures stack == [] ==> r.Number? && (count <= MaxInt32 ==> r.value == count)
  {
    if stack == [] then Number(ToInt32(count)) else stack[|stack| - 1]
  }

  /** The returned tree (or the exception that escaped) and every message
      written along the way. */
  datatype ParseOutcome = ParseOutcome(result: Result<Expr>, log: seq<Diagnostic>)

  /** The specification of `Parser::parse`: tokenize, report the number of
      tokens, run the loop, return what is left on top of the stack. */
  function Parsed(input: string): ParseOutcome {
    LexParsable(input, 0);
    ParseTokens(LexFrom(input, 0), LexDiagnosticsFrom(input, 0))
  }

  function ParseTokens(tokens: seq<Token>, lexLog: seq<Diagnostic>): ParseOutcome
    requires Parsable(tokens)
  {
    match Run(tokens, State(0, [], lexLog + [FoundTokens(|tokens|)]))
    case Threw(e, log) => ParseOutcome(Failure(e), log)
    case Done(st) => ParseOutcome(Success(Final(st.stack, |tokens|)), st.log)
  }

  /** `Parser::parse`. */
  method Parse(input: string) returns (r: Result<Expr>, log: seq<Diagnostic>)
    ensures ParseOutcome(r, log) == Parsed(input)
  {
    var tokens, lexLog := Tokenize(input);
    LexParsable(input, 0);
    log := lexLog + [FoundTokens(|tokens|)];
    ghost var start := State(0, [], log);
    var stack: seq<Expr> := [];
    var idx := 0;
    while idx < |tokens|
      invariant Run(tokens, State(idx, stack, log)) == Run(tokens, start)
      decreases |tokens| - idx
    {
      ghost var before := State(idx, stack, log);
      var token := tokens[idx];
      if token.kind == NUM {
        var v := Stoi(token.value);
        if v.Failure? {
          r := Failure(v.error);
          return;
        }
        stack := stack + [CreateNumber(v.value)];
      } else if token.kind == OPR {
        if stack == [] {
          log := log + [InvalidOperatorToken(token.value)];
        } else {
          var left := stack[|stack| - 1];
          stack := stack[..|stack| - 1];
          if !left.Number? {
            log := log + [InvalidLeftOperand(TypeName(left), token.value)];
          } else {
            idx := idx + 1;
            if idx >= |tokens| {
              log := log + [UnexpectedEnd(token.value)];
            } else {
              var nextToken := tokens[idx];
              if nextToken.kind != NUM {
                log := log + [InvalidRightOperand(nextToken.value, token.value)];
              } else {
                var rv := Stoi(nextToken.value);
                if rv.Failure? {
                  r := Failure(rv.error);
                  return;
                }
                var op := Get(token.value[0]);
                if op.Failure? {
                  r := Failure(op.error);
                  return;
                }
                var right := CreateNumber(rv.value);
                stack := stack + [CreateBinary(op.value, left, right)];
              }
            }
          }
        }
      } else {
        log := log + [UnhandledToken(token.value)];
      }
      idx := idx + 1;
      assert Step(tokens, before) == Success(State(idx, stack, log));
    }
    r := Success(Final(stack, |tokens|));
  }

  // ---------------------------------------------------------------------
  // Properties of the parser

  /** What one iteration does to the stack. A NUM pushes a leaf with its
      value. An operator leaves the stack as it is when it is empty; else it
      pops the left operand and either pushes `left op right` (left a leaf,
      next token a NUM, both taken) or discards it, also consuming the next
      token when the left operand was a leaf. Parentheses change nothing
      but the log. The stack never grows by more than one, and an operator
      never makes it grow. */
  lemma StepEffect(tokens: seq<Token>, st: State)
    requires WellFormed(tokens) && st.idx < |tokens| && Step(tokens, st).Success?
    ensures var t, n, st' := tokens[st.idx], |st.stack|, Step(tokens, st).value;
      && (t.kind == NUM ==>
            st'.stack == st.stack + [Number(DigitsValue(t.value))] && st'.idx == st.idx + 1)
      && (t.kind == OPR ==> |st'.stack| == n || |st'.stack| == n - 1)
      && (t.kind == OPR && n == 0 ==> st'.stack == [] && st'.idx == st.idx + 1)
      && (t.kind == OPR && n > 0 && !st.stack[n - 1].Number? ==>
            st'.stack == st.stack[..n - 1] && st'.idx == st.idx + 1)
      && (t.kind == OPR && n > 0 && st.stack[n - 1].Number? ==> st'.idx == st.idx + 2)
      && (t.kind == OPR && n > 0 && st.stack[n - 1].Number? &&
          (st.idx + 1 == |tokens| || tokens[st.idx + 1].kind != NUM) ==>
            st'.stack == st.stack[..n - 1])
      && (t.kind == OPR && n > 0 && st.stack[n - 1].Number? &&
          st.idx + 1 < |tokens| && tokens[st.idx + 1].kind == NUM ==>
            st'.stack == st.stack[..n - 1] + [Binary(Get(t.value[0]).value, st.stack[n - 1],
                                                     Number(DigitsValue(tokens[st.idx + 1].value)))])
      && (t.kind != NUM && t.kind != OPR ==> st'.stack == st.stack && st'.idx == st.idx + 1)
  {
  }

  /** One iteration on a NUM token that fits in an `int`. */
  lemma StepLeaf(tokens: seq<Token>, st: State, v: Int32)
    requires WellFormed(tokens) && st.idx < |tokens|
    requires tokens[st.idx].kind == NUM && DigitsValue(tokens[st.idx].value) == v
    ensures Run(tokens, st) == Run(tokens, State(st.idx + 1, st.stack + [Number(v)], st.log))
  {
    assert WellFormedToken(tokens[st.idx]);
    var next := Step(tokens, st).value;
    assert next.idx == st.idx + 1 && next.stack == st.stack + [Number(v)] && next.log == st.log;
  }

  /** One iteration on an operator between a leaf on the stack and a NUM. */
  lemma StepNode(tokens: seq<Token>, st: State, c: char, l: Int32, r: Int32)
    requires WellFormed(tokens) && st.idx + 1 < |tokens|
    requires tokens[st.idx] == Token([c], OPR) && IsOpChar(c)
    requires |st.stack| > 0 && st.stack[|st.stack| - 1] == Number(l)
    requires tokens[st.idx + 1].kind == NUM && DigitsValue(tokens[st.idx + 1].value) == r
    ensures Run(tokens, st) == Run(tokens, State(st.idx + 2,
      st.stack[..|st.stack| - 1] + [Binary(Get(c).value, Number(l), Number(r))], st.log))
  {
    assert WellFormedToken(tokens[st.idx + 1]);
    var next := Step(tokens, st).value;
    assert next.idx == st.idx + 2 && next.log == st.log;
    assert next.stack == st.stack[..|st.stack| - 1] + [Binary(Get(c).value, Number(l), Number(r))];
  }

  /** One iteration on an operator whose left operand is a binary node. */
  lemma StepBadLeft(tokens: seq<Token>, st: State, c: char)
    requires WellFormed(tokens) && st.idx < |tokens|
    requires tokens[st.idx] == Token([c], OPR)
    requires |st.stack| > 0 && st.stack[|st.stack| - 1].Binary?
    ensures Run(tokens, st) == Run(tokens, State(st.idx + 1, st.stack[..|st.stack| - 1],
      st.log + [InvalidLeftOperand("BinaryNode", [c])]))
  {
    var left := st.stack[|st.stack| - 1];
    assert TypeName(left) == "BinaryNode";
    assert tokens[st.idx].value == [c] && tokens[st.idx].kind == OPR;
    assert Step(tokens, st) == Success(State(st.idx + 1, st.stack[..|st.stack| - 1],
      st.log + [InvalidLeftOperand(TypeName(left), tokens[st.idx].value)]));
  }

  /** The only trees the parser ever puts on its stack: a leaf, or an
      arithmetic operator applied to two leaves. */
  predicate Simple(e: Expr) {
    e.Number? || (IsArithmetic(e.op) && e.left.Number? && e.right.Number?)
  }

  predicate AllSimple(stack: seq<Expr>) {
    forall k :: 0 <= k < |stack| ==> Simple(stack[k])
  }

  lemma {:induction false} RunKeepsSimple(tokens: seq<Token>, st: State)
    requires WellFormed(tokens) && AllSimple(st.stack)
    ensures Run(tokens, st).Done? ==> AllSimple(Run(tokens, st).state.stack)
    decreases |tokens| - st.idx
  {
    if st.idx < |tokens| && Step(tokens, st).Success? {
      var next := Step(tokens, st).value;
      assert AllSimple(next.stack);
      RunKeepsSimple(tokens, next);
    }
  }

  /** Every tree `parse` returns has depth at most 1: a leaf, or an
      arithmetic operator over two leaves. */
  lemma ParsedShape(input: string)
    ensures Parsed(input).result.Success? ==>
      var e := Parsed(input).result.value;
      Simple(e) && Depth(e) <= 1 && AllArithmetic(e)
  {
    LexShape(input, 0);
    var tokens := LexFrom(input, 0);
    RunKeepsSimple(tokens, State(0, [], LexDiagnosticsFrom(input, 0) + [FoundTokens(|tokens|)]));
  }

  lemma MulBound(a: int, b: int)
    requires Abs(a) <= 0x8000_0000 && Abs(b) <= 0x8000_0000
    ensures Abs(a * b) <= 0x4000_0000_0000_0000
  {
    var x, y := Abs(a), Abs(b);
    AbsMul(a, b);
    MulLe(x, 0x8000_0000, y);
    MulLe(y, 0x8000_0000, 0x8000_0000);
  }

  /** A tree `parse` returns never fails with "Unknown operator"; it fails
      with "Divide by zero" exactly when it is a division whose right leaf is
      0; otherwise its value fits in 64 bits, so `int64_t` arithmetic cannot
      overflow on it. */
  lemma ParsedValue(input: string)
    ensures Parsed(input).result.Success? ==>
      var e := Parsed(input).result.value;
      && GetValue(e) != Failure(UnknownOperator)
      && (GetValue(e) == Failure(DivideByZero) <==> e.Binary? && e.op == DIV && e.right == Number(0))
      && (GetValue(e).Success? ==> InInt64(GetValue(e).value))
  {
    ParsedShape(input);
    if Parsed(input).result.Success? {
      var e := Parsed(input).result.value;
      if e.Binary? {
        MulBound(e.left.value, e.right.value);
      }
    }
  }

  /** A token on which `std::stoi` throws. */
  predicate Overflows(t: Token) {
    t.kind == NUM && AllDigits(t.value) && DigitsValue(t.value) > MaxInt32
  }

  /** Every NUM token is converted exactly once, so the loop is left by an
      exception exactly when some remaining NUM token does not fit in an
      `int`, and that exception is always `out_of_range`. */
  lemma {:induction false} RunThrowsIff(tokens: seq<Token>, st: State)
    requires WellFormed(tokens)
    ensures Run(tokens, st).Threw? <==>
      exists k :: st.idx <= k < |tokens| && Overflows(tokens[k])
    ensures Run(tokens, st).Threw? ==> Run(tokens, st).error == OutOfRange
    decreases |tokens| - st.idx
  {
    if st.idx < |tokens| {
      var t := tokens[st.idx];
      assert WellFormedToken(t);
      match Step(tokens, st)
      case Failure(e) =>
        if t.kind == NUM {
          assert Overflows(t);
        } else {
          assert WellFormedToken(tokens[st.idx + 1]) && Overflows(tokens[st.idx + 1]);
        }
      case Success(next) =>
        RunThrowsIff(tokens, next);
        if next.idx == st.idx + 2 && st.idx + 1 < |tokens| {
          assert WellFormedToken(tokens[st.idx + 1]) && !Overflows(tokens[st.idx + 1]);
        }
        assert !Overflows(t);
    }
  }

  /** `parse` throws exactly when the input holds a run of digits whose value
      does not fit in an `int`, and then only `out_of_range`; it never
      returns null (every other input yields a tree). */
  lemma ParseThrowsIff(input: string)
    ensures Parsed(input).result.Failure? <==>
      exists k :: 0 <= k < |LexFrom(input, 0)| && Overflows(LexFrom(input, 0)[k])
    ensures Parsed(input).result.Failure? ==> Parsed(input).result.error == OutOfRange
  {
    LexShape(input, 0);
    var tokens := LexFrom(input, 0);
    RunThrowsIff(tokens, State(0, [], LexDiagnosticsFrom(input, 0) + [FoundTokens(|tokens|)]));
  }

  /** A run of digits parses to a leaf with its decimal value. */
  lemma ParseDigits(d: string)
    requires |d| > 0 && AllDigits(d)
    ensures DigitsValue(d) <= MaxInt32 ==>
      Parsed(d) == ParseOutcome(Success(Number(DigitsValue(d))), [FoundTokens(1)])
    ensures DigitsValue(d) > MaxInt32 ==>
      Parsed(d) == ParseOutcome(Failure(OutOfRange), [FoundTokens(1)])
  {
    assert RunEnd(d, 0) == |d|;
    assert d[0..|d|] == d;
    assert LexFrom(d, 0) == [Token(d, NUM)];
    ValidCharsNoDiagnostics(d, 0);
    var tokens := [Token(d, NUM)];
    assert WellFormed(tokens) by {
      assert WellFormedToken(tokens[0]);
    }
    var st0 := State(0, [], [FoundTokens(1)]);
    var s1 := Step(tokens, st0);
    if DigitsValue(d) <= MaxInt32 {
      assert s1.Success? && s1.value.idx == 1 && s1.value.log == [FoundTokens(1)];
      assert s1.value.stack == [Number(DigitsValue(d))];
      assert Run(tokens, st0) == Done(s1.value);
    } else {
      assert s1 == Failure(OutOfRange);
      assert Run(tokens, st0) == Threw(OutOfRange, [FoundTokens(1)]);
    }
    assert [] + [FoundTokens(1)] == [FoundTokens(1)];
  }

  /** Input without any digit, operator or parenthesis yields no token and
      parses to the leaf 0; in particular the empty input does. */
  lemma {:induction false} NoLexicalNoTokens(s: string, i: nat)
    requires i <= |s|
    requires forall k :: i <= k < |s| ==> !IsLexical(s[k])
    ensures LexFrom(s, i) == []
    decreases |s| - i
  {
    if i < |s| {
      NoLexicalNoTokens(s, i + 1);
    }
  }

  lemma ParseWithoutTokens(input: string)
    requires forall k :: 0 <= k < |input| ==> !IsLexical(input[k])
    ensures Parsed(input).result == Success(Number(0))
    ensures Parsed(input).log == LexDiagnosticsFrom(input, 0) + [FoundTokens(0)]
  {
    NoLexicalNoTokens(input, 0);
  }

  /** Input made only of whitespace and lexical characters writes no
      "Invalid character" message. */
  lemma {:induction false} ValidCharsNoDiagnostics(s: string, i: nat)
    requires i <= |s|
    requires forall k :: i <= k < |s| ==> IsSpace(s[k]) || IsLexical(s[k])
    ensures LexDiagnosticsFrom(s, i) == []
    decreases |s| - i
  {
    if i < |s| {
      ValidCharsNoDiagnostics(s, i + 1);
    }
  }

  lemma LexSimpleBinary(d1: string, c: char, d2: string)
    requires |d1| > 0 && AllDigits(d1) && |d2| > 0 && AllDigits(d2) && IsOpChar(c)
    ensures LexFrom(d1 + [c] + d2, 0) == [Token(d1, NUM), Token([c], OPR), Token(d2, NUM)]
    ensures LexDiagnosticsFrom(d1 + [c] + d2, 0) == []
  {
    var s := d1 + [c] + d2;
    var n := |d1|;
    SimpleBinaryRuns(d1, c, d2);
    assert LexFrom(s, n + 1) == [Token(d2, NUM)];
    assert LexFrom(s, n) == [Token([c], OPR), Token(d2, NUM)];
    ValidCharsNoDiagnostics(s, 0);
  }

  /** The two runs of digits in `a op b` and where they end. */
  lemma SimpleBinaryRuns(d1: string, c: char, d2: string)
    requires |d1| > 0 && AllDigits(d1) && |d2| > 0 && AllDigits(d2) && IsOpChar(c)
    ensures var s, n := d1 + [c] + d2, |d1|;
      && s[n] == c && RunEnd(s, 0) == n && RunEnd(s, n + 1) == |s|
      && s[0..n] == d1 && s[n + 1..|s|] == d2
      && forall k :: 0 <= k < |s| ==> IsSpace(s[k]) || IsLexical(s[k])
  {
    var s := d1 + [c] + d2;
    var n := |d1|;
    assert forall k :: 0 <= k < n ==> s[k] == d1[k];
    assert forall k :: n < k < |s| ==> s[k] == d2[k - n - 1];
    assert s[0..n] == d1 && s[n + 1..|s|] == d2;
  }

  /** `a op b`, two runs of digits around one operator character, parses to
      the binary node of that operator over the two leaves. */
  lemma ParseSimpleBinary(d1: string, c: char, d2: string)
    requires |d1| > 0 && AllDigits(d1) && DigitsValue(d1) <= MaxInt32
    requires |d2| > 0 && AllDigits(d2) && DigitsValue(d2) <= MaxInt32
    requires IsOpChar(c)
    ensures Parsed(d1 + [c] + d2) == ParseOutcome(
      Success(Binary(Get(c).value, Number(DigitsValue(d1)), Number(DigitsValue(d2)))),
      [FoundTokens(3)])
  {
    LexSimpleBinary(d1, c, d2);
    var tokens := [Token(d1, NUM), Token([c], OPR), Token(d2, NUM)];
    var e := Binary(Get(c).value, Number(DigitsValue(d1)), Number(DigitsValue(d2)));
    RunSimpleBinary(d1, c, d2);
    assert [] + [FoundTokens(3)] == [FoundTokens(3)];
    assert ParseTokens(tokens, []) == ParseOutcome(Success(e), [FoundTokens(3)]);
  }

  /** The loop of `parse` over the three tokens of `a op b`. */
  lemma RunSimpleBinary(d1: string, c: char, d2: string)
    requires |d1| > 0 && AllDigits(d1) && DigitsValue(d1) <= MaxInt32
    requires |d2| > 0 && AllDigits(d2) && DigitsValue(d2) <= MaxInt32
    requires IsOpChar(c)
    ensures var tokens := [Token(d1, NUM), Token([c], OPR), Token(d2, NUM)];
      && WellFormed(tokens)
      && Run(tokens, State(0, [], [FoundTokens(3)])) == Done(State(3,
           [Binary(Get(c).value, Number(DigitsValue(d1)), Number(DigitsValue(d2)))], [FoundTokens(3)]))
  {
    var tokens := [Token(d1, NUM), Token([c], OPR), Token(d2, NUM)];
    assert WellFormed(tokens) by {
      assert WellFormedToken(tokens[0]) && WellFormedToken(tokens[1]) && WellFormedToken(tokens[2]);
    }
    var v1, v2 := DigitsValue(d1), DigitsValue(d2);
    var e := Binary(Get(c).value, Number(v1), Number(v2));
    var log := [FoundTokens(3)];
    StepLeaf(tokens, State(0, [], log), v1);
    assert [] + [Number(v1)] == [Number(v1)];
    StepNode(tokens, State(1, [Number(v1)], log), c, v1, v2);
    assert [Number(v1)][..0] + [e] == [e];
    assert Run(tokens, State(3, [e], log)) == Done(State(3, [e], log));
  }
}
