/** The syntax tree the compiler walks: only the node kinds it distinguishes, the rest folded into `Other`. */
module Ast {
  import opened Ints

  datatype Node =
    | Program(statements: seq<Node>)
    | ExpressionStatement(expression: Node)
    | InfixExpression(operator: string, left: Node, right: Node)
    | IntegerLiteral(intValue: Int64)
    | Boolean(boolValue: bool)
    /** Any node kind the compiler's type switch has no case for. */
    | Other

  /** The number of nodes in a tree; the compiler's recursion descends along it. */
  function Size(n: Node): (r: nat)
    ensures r >= 1
    decreases n
  {
    match n
    case Program(ss) => 1 + SizeSeq(ss)
    case ExpressionStatement(e) => 1 + Size(e)
    case InfixExpression(_, l, r) => 1 + Size(l) + Size(r)
    case _ => 1
  }

  function SizeSeq(ns: seq<Node>): (r: nat)
    ensures ns != [] ==> r >= Size(ns[0])
    decreases ns
  {
    if ns == [] then 0 else Size(ns[0]) + SizeSeq(ns[1..])
  }

  /** Each node of a list is no larger than the list, and a suffix is no larger than the list. */
  lemma {:induction false} SizeSeqBounds(ns: seq<Node>, i: nat)
    requires i <= |ns|
    ensures SizeSeq(ns[i..]) <= SizeSeq(ns)
    ensures i < |ns| ==> Size(ns[i]) <= SizeSeq(ns[i..])
    decreases i
  {
    if i > 0 {
      SizeSeqBounds(ns[1..], i - 1);
      assert ns[1..][i - 1..] == ns[i..];
    }
  }

  /** The two operands of an infix expression, as the compiler visits them. */
  lemma SizePair(a: Node, b: Node)
    ensures SizeSeq([a, b]) == Size(a) + Size(b)
  {
    assert [a, b][1..] == [b];
    assert [b][1..] == [];
    assert SizeSeq([b]) == Size(b) + SizeSeq([]);
  }
}
