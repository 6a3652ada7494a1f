/** The condition relation of the analyzer: a condition is a boolean SSA
    value paired with the truth value it is asserted to have, and `Equal`
    decides whether a queried condition is implied by a stored one. */
module Conditions {
  import opened Ssa

  datatype Cond = Cond(v: Value, val: bool)

  /** Number of unary and binary operation nodes along the operand tree;
      the relation below only ever descends through those. */
  function Size(v: Value): nat
  {
    match v.kind
    case UnOp(_, x) => 1 + Size(x)
    case BinOp(_, x, y) => 1 + Size(x) + Size(y)
    case _ => 1
  }

  /** The condition with inverted truth value that states the same thing:
      `!x` keeps its node, a comparison is copied into a fresh node with the
      negated operator over the same operands. Anything else has none. */
  function Converse(c: Cond): (r: Option<Cond>)
    ensures r.Some? <==> (c.v.kind.UnOp? && c.v.kind.op == Not)
                         || (c.v.kind.BinOp? && c.v.kind.op.IsComparison())
    ensures r.Some? ==> r.value.val == !c.val
    ensures r.Some? && c.v.kind.UnOp? ==> r.value.v == c.v
    ensures r.Some? && c.v.kind.BinOp? ==>
              && r.value.v != c.v
              && !r.value.v.id.Node?
              && r.value.v.kind.BinOp?
              && r.value.v.kind.x == c.v.kind.x
              && r.value.v.kind.y == c.v.kind.y
              && r.value.v.kind.op.IsComparison()
              && r.value.v.kind.op == Negated(c.v.kind.op)
              && Size(r.value.v) == Size(c.v)
  {
    match c.v.kind
    case UnOp(op, _) =>
      if op == Not then Some(Cond(c.v, !c.val)) else None
    case BinOp(op, x, y) =>
      if op.IsComparison() then Some(Cond(Value(CopyOf(c.v.id), BinOp(Negated(op), x, y)), !c.val))
      else None
    case _ => None
  }

  /** Operand comparison: the same node, or two constants with the same value.
      A value that is no constant equals only itself, and a constant only
      constants. */
  predicate EqualValue(v1: Value, v2: Value): (r: bool)
    ensures v1 == v2 ==> r
    ensures r ==> (v1.kind.Const? <==> v2.kind.Const?)
    ensures r && !v1.kind.Const? ==> v1 == v2
  {
    v1 == v2 || (v1.kind.Const? && v2.kind.Const? && v1.kind.lit == v2.kind.lit)
  }

  /** Whether the queried condition `c1` is implied by the stored condition
      `c2`. A match never relates two different truth values. */
  predicate Equal(c1: Cond, c2: Cond): (r: bool)
    ensures r ==> c1.val == c2.val
    decreases Size(c1.v) + Size(c2.v), 2
  {
    if c1 == c2 then true
    else match c2.v.kind
      case UnOp(_, _) => EqualUnOp(c1, c2.v, c2.val)
      case BinOp(_, _, _) => EqualBinOp(c1, c2.v, c2.val, true)
      case _ => false
  }

  /** A stored `!x` is looked through to `x`, keeping the stored truth value. */
  predicate EqualUnOp(c1: Cond, u: Value, val: bool): (r: bool)
    requires u.kind.UnOp?
    ensures r ==> c1.val == val
    decreases Size(c1.v) + Size(u), 1
  {
    if u.kind.op == Not then Equal(c1, Cond(u.kind.x, val)) else false
  }

  /** Against a stored binary operation `b` asserted `val`. A unary operation on
      the query side is stripped and the two sides change places; two
      comparisons match by operator, truth value and operands, or by one of
      the strict/non-strict implications, or, once, after taking the query's
      converse (which inverts the stored value as well). */
  predicate EqualBinOp(c1: Cond, b: Value, val: bool, converse: bool): (r: bool)
    requires b.kind.BinOp?
    ensures r ==> c1.val == val
    decreases Size(c1.v) + Size(b), if converse then 1 else 0
  {
    match c1.v.kind
    case UnOp(_, x) => Equal(Cond(b, val), Cond(x, c1.val))
    case BinOp(op1, x1, y1) =>
      var op2, x2, y2 := b.kind.op, b.kind.x, b.kind.y;
      if op1 == op2 && c1.val == val then
        if op1.IsEquality() then
          (EqualValue(x1, x2) && EqualValue(y1, y2)) || (EqualValue(x1, y2) && EqualValue(y1, x2))
        else if op1.IsOrdering() then
          EqualValue(x1, x2) && EqualValue(y1, y2)
        else false
      else if op1 == Eql && c1.val == val && (op2 == Leq || op2 == Geq) then
        EqualValue(x1, x2) && EqualValue(y1, y2)
      else if op1 == Gtr && c1.val == val && op2 == Geq then
        EqualValue(x1, x2) && EqualValue(y1, y2)
      else if op1 == Lss && c1.val == val && op2 == Leq then
        EqualValue(x1, x2) && EqualValue(y1, y2)
      else if converse then
        match Converse(c1)
        case Some(c1') => EqualBinOp(c1', b, !val, false)
        case None => false
      else false
    case _ => false
  }
}
