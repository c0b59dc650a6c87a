/** What the stack parser of cpp/parser.cpp does with a few concrete lines,
    worked out step by step. */
module ParserCases {
  import opened Numeric
  import opened Expression
  import opened Parser

  lemma LexTwoPlusThreeTimesFour()
    ensures LexFrom("2+3*4", 0) ==
      [Token("2", NUM), Token("+", OPR), Token("3", NUM), Token("*", OPR), Token("4", NUM)]
    ensures LexDiagnosticsFrom("2+3*4", 0) == []
  {
    var s := "2+3*4";
    assert RunEnd(s, 4) == 5 && s[4..5] == "4";
    assert LexFrom(s, 4) == [Token("4", NUM)];
    assert LexFrom(s, 3) == [Token("*", OPR), Token("4", NUM)];
    assert RunEnd(s, 2) == 3 && s[2..3] == "3";
    assert LexFrom(s, 2) == [Token("3", NUM), Token("*", OPR), Token("4", NUM)];
    assert LexFrom(s, 1) == [Token("+", OPR), Token("3", NUM), Token("*", OPR), Token("4", NUM)];
    assert RunEnd(s, 0) == 1 && s[0..1] == "2";
    ValidCharsNoDiagnostics(s, 0);
  }

  /** The loop of `parse` over the tokens of "2+3*4". */
  lemma RunTwoPlusThreeTimesFour(tokens: seq<Token>)
    requires tokens == [Token("2", NUM), Token("+", OPR), Token("3", NUM), Token("*", OPR), Token("4", NUM)]
    ensures WellFormed(tokens)
    ensures Run(tokens, State(0, [], [FoundTokens(5)])) ==
      Done(State(5, [Number(4)], [FoundTokens(5), InvalidLeftOperand("BinaryNode", "*")]))
  {
    TokensTwoPlusThreeTimesFour(tokens);
    RunTwoPlusThree(tokens);
    RunTimesFour(tokens);
  }

  /** The first three tokens build the node for 2+3. */
  lemma RunTwoPlusThree(tokens: seq<Token>)
    requires tokens == [Token("2", NUM), Token("+", OPR), Token("3", NUM), Token("*", OPR), Token("4", NUM)]
    requires WellFormed(tokens) && DigitsValue("2") == 2 && DigitsValue("3") == 3
    ensures Run(tokens, State(0, [], [FoundTokens(5)])) ==
      Run(tokens, State(3, [Binary(ADD, Number(2), Number(3))], [FoundTokens(5)]))
  {
    RunPushTwo(tokens);
    RunPlusThree(tokens);
  }

  lemma RunPushTwo(tokens: seq<Token>)
    requires tokens == [Token("2", NUM), Token("+", OPR), Token("3", NUM), Token("*", OPR), Token("4", NUM)]
    requires WellFormed(tokens) && DigitsValue("2") == 2
    ensures Run(tokens, State(0, [], [FoundTokens(5)])) ==
      Run(tokens, State(1, [Number(2)], [FoundTokens(5)]))
  {
    StepLeaf(tokens, State(0, [], [FoundTokens(5)]), 2);
    assert [] + [Number(2)] == [Number(2)];
  }

  lemma RunPlusThree(tokens: seq<Token>)
    requires tokens == [Token("2", NUM), Token("+", OPR), Token("3", NUM), Token("*", OPR), Token("4", NUM)]
    requires WellFormed(tokens) && DigitsValue("3") == 3
    ensures Run(tokens, State(1, [Number(2)], [FoundTokens(5)])) ==
      Run(tokens, State(3, [Binary(ADD, Number(2), Number(3))], [FoundTokens(5)]))
  {
    assert Get('+') == Success(ADD);
    StepNode(tokens, State(1, [Number(2)], [FoundTokens(5)]), '+', 2, 3);
    assert [Number(2)][..0] + [Binary(ADD, Number(2), Number(3))] == [Binary(ADD, Number(2), Number(3))];
  }

  /** `*` finds that node as its left operand and drops it; 4 is pushed. */
  lemma RunTimesFour(tokens: seq<Token>)
    requires tokens == [Token("2", NUM), Token("+", OPR), Token("3", NUM), Token("*", OPR), Token("4", NUM)]
    requires WellFormed(tokens) && DigitsValue("4") == 4
    ensures Run(tokens, State(3, [Binary(ADD, Number(2), Number(3))], [FoundTokens(5)])) ==
      Done(State(5, [Number(4)], [FoundTokens(5), InvalidLeftOperand("BinaryNode", "*")]))
  {
    var log4 := [FoundTokens(5)] + [InvalidLeftOperand("BinaryNode", "*")];
    StepBadLeft(tokens, State(3, [Binary(ADD, Number(2), Number(3))], [FoundTokens(5)]), '*');
    StepLeaf(tokens, State(4, [], log4), 4);
    var st5 := State(5, [Number(4)], log4);
    assert [] + [Number(4)] == [Number(4)];
    assert Run(tokens, st5) == Done(st5);
  }

  lemma TokensTwoPlusThreeTimesFour(tokens: seq<Token>)
    requires tokens == [Token("2", NUM), Token("+", OPR), Token("3", NUM), Token("*", OPR), Token("4", NUM)]
    ensures WellFormed(tokens)
    ensures DigitsValue("2") == 2 && DigitsValue("3") == 3 && DigitsValue("4") == 4
  {
    assert AllDigits("2") && AllDigits("3") && AllDigits("4");
    forall k | 0 <= k < 5 ensures WellFormedToken(tokens[k]) {
    }
  }

  /** "2+3*4" is not parsed with precedence: `2+3` becomes a node, then `*`
      finds that node as its left operand, reports it and drops it, and the
      final 4 is what is left on the stack. */
  lemma ParseTwoPlusThreeTimesFour()
    ensures Parsed("2+3*4") ==
      ParseOutcome(Success(Number(4)), [FoundTokens(5), InvalidLeftOperand("BinaryNode", "*")])
  {
    LexTwoPlusThreeTimesFour();
    var tokens := [Token("2", NUM), Token("+", OPR), Token("3", NUM), Token("*", OPR), Token("4", NUM)];
    RunTwoPlusThreeTimesFour(tokens);
    assert [] + [FoundTokens(5)] == [FoundTokens(5)];
    assert ParseTokens(tokens, []) ==
      ParseOutcome(Success(Number(4)), [FoundTokens(5), InvalidLeftOperand("BinaryNode", "*")]);
  }

  /** A trailing operator is reported and its left operand dropped; with the
      stack empty, `parse` returns a leaf holding the token count. */
  lemma ParseTrailingOperator()
    ensures Parsed("2+") == ParseOutcome(Success(Number(2)), [FoundTokens(2), UnexpectedEnd("+")])
  {
    var tokens := [Token("2", NUM), Token("+", OPR)];
    LexTrailingOperator();
    RunTrailingOperator(tokens);
    assert [] + [FoundTokens(2)] == [FoundTokens(2)];
    assert ParseTokens(tokens, []) == ParseOutcome(Success(Number(2)), [FoundTokens(2), UnexpectedEnd("+")]);
  }

  lemma LexTrailingOperator()
    ensures LexFrom("2+", 0) == [Token("2", NUM), Token("+", OPR)]
    ensures LexDiagnosticsFrom("2+", 0) == []
  {
    var s := "2+";
    assert LexFrom(s, 1) == [Token("+", OPR)];
    assert RunEnd(s, 0) == 1 && s[0..1] == "2";
    ValidCharsNoDiagnostics(s, 0);
  }

  /** The loop over the tokens of "2+": the leaf 2 is pushed, then `+` finds
      no right operand, reports it and pops the leaf. */
  lemma RunTrailingOperator(tokens: seq<Token>)
    requires tokens == [Token("2", NUM), Token("+", OPR)]
    ensures Run(tokens, State(0, [], [FoundTokens(2)])) ==
      Done(State(3, [], [FoundTokens(2), UnexpectedEnd("+")]))
  {
    assert WellFormed(tokens) by {
      assert AllDigits("2");
      forall k | 0 <= k < 2 ensures WellFormedToken(tokens[k]) {
      }
    }
    assert DigitsValue("2") == 2;
    var log := [FoundTokens(2)];
    StepLeaf(tokens, State(0, [], log), 2);
    assert [] + [Number(2)] == [Number(2)];
    var st1 := State(1, [Number(2)], log);
    var next := Step(tokens, st1).value;
    assert next.idx == 3 && next.stack == [] && next.log == log + [UnexpectedEnd("+")];
  }

  /** "10/0" parses to a division node; only its value fails. */
  lemma ParseDivisionByZero()
    ensures Parsed("10/0").result == Success(Binary(DIV, Number(10), Number(0)))
    ensures GetValue(Parsed("10/0").result.value) == Failure(DivideByZero)
  {
    assert "10" + ['/'] + "0" == "10/0";
    assert AllDigits("10") && AllDigits("0");
    assert DigitsValue("10") == 10 by {
      assert "10"[..1] == "1";
    }
    ParseSimpleBinary("10", '/', "0");
  }

  /** Empty input yields the leaf 0 and only the token count message. */
  lemma ParseEmpty()
    ensures Parsed("") == ParseOutcome(Success(Number(0)), [FoundTokens(0)])
  {
    ParseWithoutTokens("");
  }
}
