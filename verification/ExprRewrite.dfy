/** The rewriting that grammar actions do on expressions, and three-valued logic to measure it by. */
module ExprRewrite {

  datatype Value = Null | Int(n: int)

  const TRUE := Int(1)
  const FALSE := Int(0)

  function Bool(b: bool): Value {
    if b then TRUE else FALSE
  }

  predicate IsTrue(v: Value) {
    v.Int? && v.n != 0
  }

  predicate IsFalse(v: Value) {
    v == FALSE
  }

  function Not3(v: Value): Value {
    if v == Null then Null else Bool(v.n == 0)
  }

  function And3(a: Value, b: Value): Value {
    if IsFalse(a) || IsFalse(b) then FALSE else if a == Null || b == Null then Null else TRUE
  }

  function Or3(a: Value, b: Value): Value {
    if IsTrue(a) || IsTrue(b) then TRUE else if a == Null || b == Null then Null else FALSE
  }

  datatype Cmp = EQ | NE | LT | LE | GT | GE

  function Compare(op: Cmp, a: Value, b: Value): Value {
    if a == Null || b == Null then Null
    else Bool(match op
      case EQ => a.n == b.n case NE => a.n != b.n case LT => a.n < b.n
      case LE => a.n <= b.n case GT => a.n > b.n case GE => a.n >= b.n)
  }

  function Negate(v: Value): Value {
    if v == Null then Null else Int(-v.n)
  }

  /** Scalar expressions as they are written. */
  datatype Surface =
    | Column(k: nat) | Number(n: nat) | NullLiteral
    | Plus(e: Surface) | Minus(e: Surface) | Not(e: Surface) | PostIsNull(e: Surface) | PostNotNull(e: Surface)
    | Comparison(op: Cmp, l: Surface, r: Surface) | And(l: Surface, r: Surface) | Or(l: Surface, r: Surface)
    | Is(l: Surface, r: Surface, not: bool)
    | Between(e: Surface, lo: Surface, hi: Surface, not: bool)
    | In(e: Surface, list: Surfaces, not: bool)

  datatype Surfaces = Nil | Cons(head: Surface, tail: Surfaces)

  function NotIf(c: bool, v: Value): Value {
    if c then Not3(v) else v
  }

  /** What an expression means in row `row`. IN is a disjunction of equalities, BETWEEN a conjunction of comparisons. */
  function Meaning(s: Surface, row: nat -> Value): Value
    decreases s
  {
    match s
    case Column(k) => row(k)
    case Number(n) => Int(n)
    case NullLiteral => Null
    case Plus(e) => Meaning(e, row)
    case Minus(e) => Negate(Meaning(e, row))
    case Not(e) => Not3(Meaning(e, row))
    case PostIsNull(e) => Bool(Meaning(e, row) == Null)
    case PostNotNull(e) => Bool(Meaning(e, row) != Null)
    case Comparison(op, l, r) => Compare(op, Meaning(l, row), Meaning(r, row))
    case And(l, r) => And3(Meaning(l, row), Meaning(r, row))
    case Or(l, r) => Or3(Meaning(l, row), Meaning(r, row))
    case Is(l, r, not) => NotIf(not, Bool(Meaning(l, row) == Meaning(r, row)))
    case Between(e, lo, hi, not) =>
      var v := Meaning(e, row);
      NotIf(not, And3(Compare(GE, v, Meaning(lo, row)), Compare(LE, v, Meaning(hi, row))))
    case In(e, list, not) => NotIf(not, AnyEqual(Meaning(e, row), list, row))
  }

  function AnyEqual(v: Value, list: Surfaces, row: nat -> Value): Value
    decreases list
  {
    match list
    case Nil => FALSE
    case Cons(head, tail) => Or3(Compare(EQ, v, Meaning(head, row)), AnyEqual(v, tail, row))
  }

  datatype UnaryOp = UPLUS | UMINUS | NOT | ISNULL | NOTNULL

  datatype BinaryOp = TkCompare(op: Cmp) | TkIs | TkIsNot | TkAnd | TkOr

  /** The trees the grammar actions build. */
  datatype Expr =
    | TkColumn(k: nat) | TkInteger(n: nat) | TkNull
    | Unary(uop: UnaryOp, left: Expr)
    | Binary(bop: BinaryOp, left: Expr, right: Expr)
    | TkBetween(left: Expr, lo: Expr, hi: Expr)
    | TkIn(left: Expr, list: ExprList)

  datatype ExprList = Empty | Append(head: Expr, tail: ExprList)

  /** How the code generated for a tree evaluates it. A list is searched for an equal value, remembering any NULL. */
  function Eval(x: Expr, row: nat -> Value): Value {
    match x
    case TkColumn(k) => row(k)
    case TkInteger(n) => Int(n)
    case TkNull => Null
    case Unary(op, l) => EvalUnary(op, Eval(l, row))
    case Binary(op, l, r) => EvalBinary(op, Eval(l, row), Eval(r, row))
    case TkBetween(l, lo, hi) =>
      And3(Compare(GE, Eval(l, row), Eval(lo, row)), Compare(LE, Eval(l, row), Eval(hi, row)))
    case TkIn(l, list) => Search(Eval(l, row), EvalList(list, row))
  }

  function EvalList(list: ExprList, row: nat -> Value): seq<Value> {
    match list case Empty => [] case Append(head, tail) => [Eval(head, row)] + EvalList(tail, row)
  }

  function EvalUnary(op: UnaryOp, v: Value): Value {
    match op
    case UPLUS => v
    case UMINUS => Negate(v)
    case NOT => Not3(v)
    case ISNULL => Bool(v == Null)
    case NOTNULL => Bool(v != Null)
  }

  function EvalBinary(op: BinaryOp, a: Value, b: Value): Value {
    match op
    case TkCompare(c) => Compare(c, a, b)
    case TkIs => Bool(a == b)
    case TkIsNot => Bool(a != b)
    case TkAnd => And3(a, b)
    case TkOr => Or3(a, b)
  }

  function Search(v: Value, values: seq<Value>): Value {
    if v != Null && v in values then TRUE
    else if values != [] && (v == Null || Null in values) then Null
    else FALSE
  }

  /** sqlite3ExprIsInteger */
  function IntegerOf(x: Expr): (r: Value)
    ensures r != Null ==> forall row: nat -> Value :: Eval(x, row) == r
  {
    match x
    case TkInteger(n) => Int(n)
    case Unary(op, l) =>
      if op == UPLUS then IntegerOf(l)
      else if op == UMINUS && IntegerOf(l) != Null then Negate(IntegerOf(l))
      else Null
    case _ => Null
  }

  /** sqlite3ExprAnd: a conjunction with a constant false is the constant 0. */
  function ExprAnd(l: Expr, r: Expr): (x: Expr)
    ensures forall row: nat -> Value :: Eval(x, row) == And3(Eval(l, row), Eval(r, row))
  {
    if IntegerOf(l) == FALSE || IntegerOf(r) == FALSE then TkInteger(0) else Binary(TkAnd, l, r)
  }

  /** sqlite3PExpr with two operands */
  function PExpr(op: BinaryOp, l: Expr, r: Expr, rename: bool): Expr {
    if op == TkAnd && !rename then ExprAnd(l, r) else Binary(op, l, r)
  }

  /** binaryToUnaryIfNull */
  function BinaryToUnaryIfNull(y: Expr, a: Expr, op: UnaryOp, rename: bool): Expr {
    if y == TkNull && !rename && a.Binary? then Unary(op, a.left) else a
  }

  function NotTree(c: bool, x: Expr): Expr {
    if c then Unary(NOT, x) else x
  }

  /** expr [NOT] IN (list), rule 202 */
  function InTree(x: Expr, list: ExprList, not: bool, rename: bool): Expr {
    if list == Empty then
      if !rename then TkInteger(if not then 1 else 0) else x
    else if list.tail == Empty then
      PExpr(TkCompare(if not then NE else EQ), x, list.head, rename)
    else
      NotTree(not, TkIn(x, list))
  }

  /** The tree the actions build, bottom up. */
  function Build(s: Surface, rename: bool): Expr {
    match s
    case Column(k) => TkColumn(k)
    case Number(n) => TkInteger(n)
    case NullLiteral => TkNull
    case Plus(e) => Unary(UPLUS, Build(e, rename))
    case Minus(e) => Unary(UMINUS, Build(e, rename))
    case Not(e) => Unary(NOT, Build(e, rename))
    case PostIsNull(e) => Unary(ISNULL, Build(e, rename))
    case PostNotNull(e) => Unary(NOTNULL, Build(e, rename))
    case Comparison(op, l, r) => PExpr(TkCompare(op), Build(l, rename), Build(r, rename), rename)
    case And(l, r) => PExpr(TkAnd, Build(l, rename), Build(r, rename), rename)
    case Or(l, r) => PExpr(TkOr, Build(l, rename), Build(r, rename), rename)
    case Is(l, r, not) =>
      var y := Build(r, rename);
      var a := PExpr(if not then TkIsNot else TkIs, Build(l, rename), y, rename);
      BinaryToUnaryIfNull(y, a, if not then NOTNULL else ISNULL, rename)
    case Between(e, lo, hi, not) =>
      NotTree(not, TkBetween(Build(e, rename), Build(lo, rename), Build(hi, rename)))
    case In(e, list, not) => InTree(Build(e, rename), BuildList(list, rename), not, rename)
  }

  function BuildList(list: Surfaces, rename: bool): ExprList {
    match list case Nil => Empty case Cons(head, tail) => Append(Build(head, rename), BuildList(tail, rename))
  }

  /** No `IN ()` anywhere. */
  predicate NoEmptyIn(s: Surface) {
    match s
    case Column(_) => true
    case Number(_) => true
    case NullLiteral => true
    case Plus(e) => NoEmptyIn(e)
    case Minus(e) => NoEmptyIn(e)
    case Not(e) => NoEmptyIn(e)
    case PostIsNull(e) => NoEmptyIn(e)
    case PostNotNull(e) => NoEmptyIn(e)
    case Comparison(_, l, r) => NoEmptyIn(l) && NoEmptyIn(r)
    case And(l, r) => NoEmptyIn(l) && NoEmptyIn(r)
    case Or(l, r) => NoEmptyIn(l) && NoEmptyIn(r)
    case Is(l, r, _) => NoEmptyIn(l) && NoEmptyIn(r)
    case Between(e, lo, hi, _) => NoEmptyIn(e) && NoEmptyIn(lo) && NoEmptyIn(hi)
    case In(e, list, _) => NoEmptyIn(e) && list != Nil && NoneEmptyIn(list)
  }

  predicate NoneEmptyIn(list: Surfaces) {
    match list case Nil => true case Cons(head, tail) => NoEmptyIn(head) && NoneEmptyIn(tail)
  }

  lemma SearchCons(v: Value, w: Value, rest: seq<Value>)
    ensures Search(v, [w] + rest) == Or3(Compare(EQ, v, w), Search(v, rest))
  {
  }

  /** Searching the values of a list is the disjunction of the equalities. */
  lemma {:induction false} SearchIsDisjunction(v: Value, list: Surfaces, rename: bool, row: nat -> Value)
    requires !rename || NoneEmptyIn(list)
    ensures Search(v, EvalList(BuildList(list, rename), row)) == AnyEqual(v, list, row)
    decreases list
  {
    match list
    case Nil =>
    case Cons(head, tail) =>
      BuildKeepsMeaning(head, rename, row);
      SearchIsDisjunction(v, tail, rename, row);
      SearchCons(v, Meaning(head, row), EvalList(BuildList(tail, rename), row));
  }

  /** Two operands, a conjunction with a constant false included. */
  lemma PairTree(op: BinaryOp, l: Expr, r: Expr, rename: bool, row: nat -> Value)
    ensures Eval(PExpr(op, l, r, rename), row) == EvalBinary(op, Eval(l, row), Eval(r, row))
  {
  }

  lemma NotTreeNegates(c: bool, x: Expr, row: nat -> Value)
    ensures Eval(NotTree(c, x), row) == NotIf(c, Eval(x, row))
  {
  }

  /** [NOT] IN over no, one or more elements: the tree finds what the search of the list would. */
  lemma InTreeSearches(x: Expr, list: ExprList, not: bool, rename: bool, row: nat -> Value)
    requires !rename || list != Empty
    ensures Eval(InTree(x, list, not, rename), row) == NotIf(not, Search(Eval(x, row), EvalList(list, row)))
  {
    var v := Eval(x, row);
    if list == Empty {
    } else if list.tail == Empty {
      var w := Eval(list.head, row);
      assert EvalList(list, row) == [w] + [];
      SearchCons(v, w, []);
      PairTree(TkCompare(if not then NE else EQ), x, list.head, rename, row);
      UnequalNegates(v, w);
    } else {
      NotTreeNegates(not, TkIn(x, list), row);
    }
  }

  lemma UnequalNegates(v: Value, w: Value)
    ensures Compare(NE, v, w) == Not3(Compare(EQ, v, w)) && Or3(Compare(EQ, v, w), FALSE) == Compare(EQ, v, w)
  {
  }

  /** IS and IS NOT, also when they become ISNULL and NOTNULL. */
  lemma IsTree(y: Expr, l: Expr, not: bool, rename: bool, row: nat -> Value)
    ensures
      var a := PExpr(if not then TkIsNot else TkIs, l, y, rename);
      Eval(BinaryToUnaryIfNull(y, a, if not then NOTNULL else ISNULL, rename), row)
        == NotIf(not, Bool(Eval(l, row) == Eval(y, row)))
  {
  }

  /** The expressions with two or three operands. */
  lemma {:induction false} OperandsKeepMeaning(s: Surface, rename: bool, row: nat -> Value)
    requires !rename || NoEmptyIn(s)
    requires s.Comparison? || s.And? || s.Or? || s.Is? || s.Between?
    ensures Eval(Build(s, rename), row) == Meaning(s, row)
    decreases s, 0
  {
    match s
    case Comparison(op, l, r) =>
      BuildKeepsMeaning(l, rename, row);
      BuildKeepsMeaning(r, rename, row);
      PairTree(TkCompare(op), Build(l, rename), Build(r, rename), rename, row);
    case And(l, r) =>
      BuildKeepsMeaning(l, rename, row);
      BuildKeepsMeaning(r, rename, row);
      PairTree(TkAnd, Build(l, rename), Build(r, rename), rename, row);
    case Or(l, r) =>
      BuildKeepsMeaning(l, rename, row);
      BuildKeepsMeaning(r, rename, row);
      PairTree(TkOr, Build(l, rename), Build(r, rename), rename, row);
    case Is(l, r, not) =>
      BuildKeepsMeaning(l, rename, row);
      BuildKeepsMeaning(r, rename, row);
      IsTree(Build(r, rename), Build(l, rename), not, rename, row);
    case Between(e, lo, hi, not) =>
      BuildKeepsMeaning(e, rename, row);
      BuildKeepsMeaning(lo, rename, row);
      BuildKeepsMeaning(hi, rename, row);
      NotTreeNegates(not, TkBetween(Build(e, rename), Build(lo, rename), Build(hi, rename)), row);
  }

  /** Every expression means what its tree evaluates to; in rename mode, every expression without `IN ()`. */
  lemma {:induction false} BuildKeepsMeaning(s: Surface, rename: bool, row: nat -> Value)
    requires !rename || NoEmptyIn(s)
    ensures Eval(Build(s, rename), row) == Meaning(s, row)
    decreases s, 1
  {
    match s
    case Column(_) =>
    case Number(_) =>
    case NullLiteral =>
    case Plus(e) => BuildKeepsMeaning(e, rename, row);
    case Minus(e) => BuildKeepsMeaning(e, rename, row);
    case Not(e) => BuildKeepsMeaning(e, rename, row);
    case PostIsNull(e) => BuildKeepsMeaning(e, rename, row);
    case PostNotNull(e) => BuildKeepsMeaning(e, rename, row);
    case Comparison(_, _, _) => OperandsKeepMeaning(s, rename, row);
    case And(_, _) => OperandsKeepMeaning(s, rename, row);
    case Or(_, _) => OperandsKeepMeaning(s, rename, row);
    case Is(_, _, _) => OperandsKeepMeaning(s, rename, row);
    case Between(_, _, _, _) => OperandsKeepMeaning(s, rename, row);
    case In(e, list, not) =>
      BuildKeepsMeaning(e, rename, row);
      SearchIsDisjunction(Meaning(e, row), list, rename, row);
      InTreeSearches(Build(e, rename), BuildList(list, rename), not, rename, row);
  }

  /** In rename mode `IN ()` is left as its operand: right only where the operand already has the value of the test. */
  lemma RenameEmptyIn(e: Surface, not: bool, row: nat -> Value)
    requires NoEmptyIn(e)
    ensures Eval(Build(In(e, Nil, not), true), row) == Meaning(In(e, Nil, not), row)
      <==> Meaning(e, row) == Bool(not)
  {
    BuildKeepsMeaning(e, true, row);
  }
}
