/** The prefix-form tree printer of cpp/ast.cpp. `ASTPrinter` writes into
    a stream it holds a reference to; here the stream's contents are the
    field `out`, and every visit appends to it. The text the printer writes
    for an operator (`getOperator`) is not defined in the shown sources, so
    it is a parameter of the printer, `opText`. */
module Ast {
  import opened Numeric
  import opened Expression
  import opened Sequences

  /** The text the printer produces for a tree: a leaf as its decimal value,
      a binary node as "(" op " " left " " right ")". */
  function Render(opText: Operator -> string, e: Expr): (s: string)
    ensures e.Number? ==> s == IntText(e.value)
    ensures e.Binary? ==>
      var h := "(" + opText(e.op) + " ";
      |s| > |h| && s[..|h|] == h && s[|s| - 1] == ')'
  {
    match e
    case Number(v) => IntText(v)
    case Binary(op, l, r) =>
      "(" + opText(op) + " " + Render(opText, l) + " " + Render(opText, r) + ")"
  }

  class ASTPrinter {
    var out: string
    const opText: Operator -> string

    /** A printer over a stream that may already hold text. */
    constructor (os: string, opText: Operator -> string)
      ensures out == os && this.opText == opText
    {
      out := os;
      this.opText := opText;
    }

    /** `visitNumberNode`: appends the decimal value of the leaf. */
    method VisitNumberNode(e: Expr)
      requires e.Number?
      modifies this
      ensures out == old(out) + IntText(e.value)
    {
      out := out + IntText(e.value);
    }

    /** `visitBinaryNode`: appends "(" op " ", the left child, " ", the right
      child and ")". */
    method VisitBinaryNode(e: Expr)
      requires e.Binary?
      modifies this
      ensures out == old(out) + Render(opText, e)
      decreases e, 0
    {
      ghost var o := out;
      out := out + "(" + opText(e.op) + " ";
      ghost var o1 := out;
      Accept(e.left);
      ghost var o2 := out;
      out := out + " ";
      ghost var o3 := out;
      Accept(e.right);
      ghost var o4 := out;
      out := out + ")";
      RenderBinary(opText, e, o, o1, o2, o3, o4, out);
    }

    /** `IExpression::accept`: the double dispatch to the visit method of the
      node's kind. */
    method Accept(e: Expr)
      modifies this
      ensures out == old(out) + Render(opText, e)
      decreases e, 1
    {
      match e
      case Number(_) => VisitNumberNode(e);
      case Binary(_, _, _) => VisitBinaryNode(e);
    }

    /** `print`: the rendering of the tree followed by one newline, appended
      after whatever the stream already held. */
    method Print(e: Expr)
      modifies this
      ensures out == old(out) + Render(opText, e) + "\n"
    {
      Accept(e);
      out := out + "\n";
    }
  }

  /** The text after the six appends of `visitBinaryNode` is the old text
      followed by the rendering of the node. */
  lemma RenderBinary(opText: Operator -> string, e: Expr,
                     o: string, o1: string, o2: string, o3: string, o4: string, o5: string)
    requires e.Binary?
    requires o1 == o + "(" + opText(e.op) + " " && o2 == o1 + Render(opText, e.left)
    requires o3 == o2 + " " && o4 == o3 + Render(opText, e.right) && o5 == o4 + ")"
    ensures o5 == o + Render(opText, e)
  {
    var t, L, R := opText(e.op), Render(opText, e.left), Render(opText, e.right);
    var h := "(" + t + " ";
    ConcatAssoc(o, "(", t);
    ConcatAssoc(o, "(" + t, " ");
    ConcatAssoc(o, h, L);
    ConcatAssoc(o, h + L, " ");
    ConcatAssoc(o, h + L + " ", R);
    ConcatAssoc(o, h + L + " " + R, ")");
  }

  // ---------------------------------------------------------------------
  // Properties of the rendering

  function Count(s: string, c: char): nat {
    if s == [] then 0 else (if s[0] == c then 1 else 0) + Count(s[1..], c)
  }

  predicate NoParens(s: string) {
    '(' !in s && ')' !in s
  }

  /** As many "(" as ")", and no prefix closes more than it opens. */
  predicate Balanced(s: string) {
    && Count(s, '(') == Count(s, ')')
    && forall k :: 0 <= k <= |s| ==> Count(s[..k], ')') <= Count(s[..k], '(')
  }

  lemma {:induction false} CountAppend(a: string, b: string, c: char)
    ensures Count(a + b, c) == Count(a, c) + Count(b, c)
  {
    if a != [] {
      assert (a + b)[1..] == a[1..] + b;
      CountAppend(a[1..], b, c);
    } else {
      assert a + b == b;
    }
  }

  lemma {:induction false} CountAbsent(s: string, c: char)
    requires c !in s
    ensures Count(s, c) == 0
  {
    if s != [] {
      assert s[0] != c;
      assert c !in s[1..] by {
        forall i | 0 <= i < |s[1..]| ensures s[1..][i] != c {
          assert s[1..][i] == s[i + 1];
        }
      }
      CountAbsent(s[1..], c);
    }
  }

  lemma NoParensBalanced(s: string)
    requires NoParens(s)
    ensures Balanced(s) && Count(s, '(') == 0
  {
    CountAbsent(s, '(');
    CountAbsent(s, ')');
    forall k | 0 <= k <= |s| ensures Count(s[..k], ')') <= Count(s[..k], '(') {
      assert ')' !in s[..k] by {
        forall i | 0 <= i < k ensures s[..k][i] != ')' {
          assert s[..k][i] == s[i];
        }
      }
      CountAbsent(s[..k], ')');
    }
  }

  lemma BalancedAppend(a: string, b: string)
    requires Balanced(a) && Balanced(b)
    ensures Balanced(a + b)
  {
    CountAppend(a, b, '(');
    CountAppend(a, b, ')');
    forall k | 0 <= k <= |a + b| ensures Count((a + b)[..k], ')') <= Count((a + b)[..k], '(') {
      if k <= |a| {
        assert (a + b)[..k] == a[..k];
      } else {
        assert (a + b)[..k] == a + b[..k - |a|];
        CountAppend(a, b[..k - |a|], '(');
        CountAppend(a, b[..k - |a|], ')');
      }
    }
  }

  lemma BalancedWrap(x: string)
    requires Balanced(x)
    ensures Balanced("(" + x + ")")
    ensures Count("(" + x + ")", '(') == Count(x, '(') + 1
  {
    var w := "(" + x + ")";
    CountAppend("(", x, '(');
    CountAppend("(", x, ')');
    CountAppend("(" + x, ")", '(');
    CountAppend("(" + x, ")", ')');
    assert Count("(", '(') == 1 && Count("(", ')') == 0;
    assert Count(")", '(') == 0 && Count(")", ')') == 1;
    forall k | 0 <= k <= |w| ensures Count(w[..k], ')') <= Count(w[..k], '(') {
      if k == |w| {
        assert w[..k] == w;
      } else if k > 0 {
        assert w[..k] == "(" + x[..k - 1];
        CountAppend("(", x[..k - 1], '(');
        CountAppend("(", x[..k - 1], ')');
      }
    }
  }

  /** When no operator text contains a parenthesis, the rendering of a tree
      is balanced and opens exactly one parenthesis per binary node. */
  lemma {:induction false} RenderBalanced(opText: Operator -> string, e: Expr)
    requires forall op :: NoParens(opText(op))
    ensures Balanced(Render(opText, e))
    ensures Count(Render(opText, e), '(') == BinaryCount(e)
  {
    match e
    case Number(v) =>
      RenderLeafHasNoParens(v);
      NoParensBalanced(IntText(v));
    case Binary(op, l, r) =>
      RenderBalanced(opText, l);
      RenderBalanced(opText, r);
      BalancedNode(opText(op), Render(opText, l), Render(opText, r));
  }

  /** One binary node's text from parenthesis-free operator text and two
      balanced children. */
  lemma BalancedNode(t: string, L: string, R: string)
    requires NoParens(t) && Balanced(L) && Balanced(R)
    ensures Balanced("(" + t + " " + L + " " + R + ")")
    ensures Count("(" + t + " " + L + " " + R + ")", '(') == Count(L, '(') + Count(R, '(') + 1
  {
    var inner := t + " " + L + " " + R;
    BalancedInner(t, L, R);
    BalancedWrap(inner);
    assert "(" + t + " " + L + " " + R + ")" == "(" + inner + ")";
  }

  lemma BalancedInner(t: string, L: string, R: string)
    requires NoParens(t) && Balanced(L) && Balanced(R)
    ensures Balanced(t + " " + L + " " + R)
    ensures Count(t + " " + L + " " + R, '(') == Count(L, '(') + Count(R, '(')
  {
    assert NoParens(t + " ");
    NoParensBalanced(t + " ");
    NoParensBalanced(" ");
    BalancedAppend(t + " ", L);
    BalancedAppend(t + " " + L, " ");
    BalancedAppend(t + " " + L + " ", R);
    CountAppend(t + " ", L, '(');
    CountAppend(t + " " + L, " ", '(');
    CountAppend(t + " " + L + " ", R, '(');
  }

  /** The decimal text of a value holds no parenthesis (it is digits, with a
      leading minus sign when negative). */
  lemma RenderLeafHasNoParens(v: int)
    ensures NoParens(IntText(v))
  {
    var s := IntText(v);
    if v >= 0 {
      assert forall i :: 0 <= i < |s| ==> IsDigit(s[i]);
    } else {
      assert forall i :: 1 <= i < |s| ==> s[1..][i - 1] == s[i] && IsDigit(s[i]);
    }
  }

  /** A leaf renders as its decimal text with no parenthesis; a binary node
      renders as text that starts with "(" and ends with ")". */
  lemma RenderShape(opText: Operator -> string, e: Expr)
    ensures e.Number? ==> Render(opText, e) == IntText(e.value) && NoParens(Render(opText, e))
    ensures e.Binary? ==>
      var s := Render(opText, e);
      |s| >= 2 && s[0] == '(' && s[|s| - 1] == ')'
  {
    if e.Number? {
      RenderLeafHasNoParens(e.value);
    }
  }

  /** "2+3" as the parser builds it renders as "(" op " 2 3)". */
  lemma RenderSimpleSum(opText: Operator -> string)
    ensures Render(opText, Binary(ADD, Number(2), Number(3))) == "(" + opText(ADD) + " 2 3)"
  {
    assert IntText(2) == "2" && IntText(3) == "3";
  }
}
