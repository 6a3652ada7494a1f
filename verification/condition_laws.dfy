/** What the condition relation decides, stated case by case against a flat
    reference table (`Entails`), and the laws the analyzer relies on. */
module ConditionLaws {
  import opened Ssa
  import opened Conditions

  /** The one-way implications between different comparison operators on the
      same operands: `op1` settles `op2`. */
  predicate StrictImplies(op1: Op, op2: Op) {
    || (op1 == Eql && (op2 == Leq || op2 == Geq))
    || (op1 == Gtr && op2 == Geq)
    || (op1 == Lss && op2 == Leq)
  }

  /** Reference table: a query `x1 op1 y1` matches a stored `x2 op2 y2` of the
      same truth value. Equal operators match with operands in the same order,
      or swapped for `==`/`!=`; different operators only along StrictImplies
      and in the same order. */
  predicate Entails(op1: Op, x1: Value, y1: Value, op2: Op, x2: Value, y2: Value) {
    var same := EqualValue(x1, x2) && EqualValue(y1, y2);
    var swapped := EqualValue(x1, y2) && EqualValue(y1, x2);
    if op1 == op2 then (op1.IsEquality() && (same || swapped)) || (op1.IsOrdering() && same)
    else StrictImplies(op1, op2) && same
  }

  /** Applying Converse twice to a condition that has one gives back its
      operator, operands and truth value (a comparison lands in a second copy). */
  lemma ConverseTwice(c: Cond)
    requires Converse(c).Some?
    ensures Converse(Converse(c).value).Some?
    ensures Converse(Converse(c).value).value.val == c.val
    ensures Converse(Converse(c).value).value.v.kind == c.v.kind
  {
    if c.v.kind.BinOp? {
      var op := c.v.kind.op;
      assert Negated(Negated(op)) == op by {
        match op
        case Eql => case Neq => case Lss => case Gtr => case Leq => case Geq =>
      }
    }
  }

  /** Converse pairs up `==`/`!=`, `<`/`>=` and `>`/`<=`. */
  lemma NegatedPairs(op: Op)
    requires op.IsComparison()
    ensures Negated(Negated(op)) == op
    ensures op == Lss <==> Negated(op) == Geq
    ensures op == Gtr <==> Negated(op) == Leq
    ensures op == Eql <==> Negated(op) == Neq
  {
  }

  /** Two binary operations: the pair is identical, or the truth values agree
      and the query or, failing that, its converse operator matches the stored
      operation in the reference table. Truth values that differ never match. */
  lemma EqualBetweenBinOps(c1: Cond, c2: Cond)
    requires c1.v.kind.BinOp? && c2.v.kind.BinOp?
    ensures Equal(c1, c2) <==>
              || c1 == c2
              || (&& c1.val == c2.val
                  && (|| Entails(c1.v.kind.op, c1.v.kind.x, c1.v.kind.y, c2.v.kind.op, c2.v.kind.x, c2.v.kind.y)
                      || (&& c1.v.kind.op.IsComparison()
                          && Entails(Negated(c1.v.kind.op), c1.v.kind.x, c1.v.kind.y,
                                     c2.v.kind.op, c2.v.kind.x, c2.v.kind.y))))
  {
    if c1 != c2 {
      assert Equal(c1, c2) == EqualBinOp(c1, c2.v, c2.val, true);
      var op1 := c1.v.kind.op;
      if op1.IsComparison() {
        var c1' := Converse(c1).value;
        assert c1'.v.kind.op == Negated(op1);
        assert c1'.v.kind.x == c1.v.kind.x && c1'.v.kind.y == c1.v.kind.y;
        assert EqualBinOp(c1', c2.v, !c2.val, false) <==>
          c1.val == c2.val && Entails(Negated(op1), c1.v.kind.x, c1.v.kind.y, c2.v.kind.op, c2.v.kind.x, c2.v.kind.y);
      }
    }
  }

  /** `==` and `!=` match with their operands in either order. */
  lemma EqualityCommutes(op: Op, i1: Id, i2: Id, x: Value, y: Value, v: bool)
    requires op.IsEquality()
    ensures Equal(Cond(Value(i1, BinOp(op, x, y)), v), Cond(Value(i2, BinOp(op, y, x)), v))
  {
  }

  /** An ordering comparison does not match its mirror image unless the two
      operands are themselves equal values. */
  lemma OrderingDoesNotCommute(op: Op, i1: Id, i2: Id, x: Value, y: Value, v: bool)
    requires op.IsOrdering()
    requires !EqualValue(x, y)
    ensures !Equal(Cond(Value(i1, BinOp(op, x, y)), v), Cond(Value(i2, BinOp(op, y, x)), v))
  {
    EqualBetweenBinOps(Cond(Value(i1, BinOp(op, x, y)), v), Cond(Value(i2, BinOp(op, y, x)), v));
  }

  /** The strict/non-strict implications match in one direction only: a query
      with operator `op1` is settled by a stored `op2` on the same operands,
      and a query with `op2` is not settled by a stored `op1`. */
  lemma ImplicationIsOneWay(op1: Op, op2: Op, i1: Id, i2: Id, x: Value, y: Value, v: bool)
    requires StrictImplies(op1, op2)
    ensures Equal(Cond(Value(i1, BinOp(op1, x, y)), v), Cond(Value(i2, BinOp(op2, x, y)), v))
    ensures !Equal(Cond(Value(i1, BinOp(op2, x, y)), v), Cond(Value(i2, BinOp(op1, x, y)), v))
  {
    EqualBetweenBinOps(Cond(Value(i1, BinOp(op2, x, y)), v), Cond(Value(i2, BinOp(op1, x, y)), v));
  }

  /** As the converse step is written, a comparison matches its converse
      operator under the SAME truth value, and never under the inverted one. */
  lemma ConverseKeepsPolarity(op: Op, i1: Id, i2: Id, x: Value, y: Value, v: bool)
    requires op.IsComparison()
    ensures Equal(Cond(Value(i1, BinOp(op, x, y)), v), Cond(Value(i2, BinOp(Negated(op), x, y)), v))
    ensures !Equal(Cond(Value(i1, BinOp(op, x, y)), v), Cond(Value(i2, BinOp(Negated(op), x, y)), !v))
  {
    EqualBetweenBinOps(Cond(Value(i1, BinOp(op, x, y)), v), Cond(Value(i2, BinOp(Negated(op), x, y)), v));
    EqualBetweenBinOps(Cond(Value(i1, BinOp(op, x, y)), v), Cond(Value(i2, BinOp(Negated(op), x, y)), !v));
  }

  /** A stored `!x` matches exactly when the pair is identical or `x` under the
      same truth value matches. */
  lemma StoredNotIsStripped(c1: Cond, i: Id, x: Value, v: bool)
    ensures Equal(c1, Cond(Value(i, UnOp(Not, x)), v)) <==>
              c1 == Cond(Value(i, UnOp(Not, x)), v) || Equal(c1, Cond(x, v))
  {
  }

  /** A stored unary operation other than `!` matches only the identical pair. */
  lemma StoredOtherUnOpIsOpaque(c1: Cond, i: Id, op: Op, x: Value, v: bool)
    requires op != Not
    ensures Equal(c1, Cond(Value(i, UnOp(op, x)), v)) <==> c1 == Cond(Value(i, UnOp(op, x)), v)
  {
  }

  /** A stored value that is neither a unary nor a binary operation matches
      only the identical pair. */
  lemma StoredOpaqueMatchesOnlyItself(c1: Cond, c2: Cond)
    requires !c2.v.kind.UnOp? && !c2.v.kind.BinOp?
    ensures Equal(c1, c2) <==> c1 == c2
  {
  }

  /** Against a stored binary operation, a queried unary operation of any
      operator is stripped and the two sides trade places. */
  lemma QueriedUnOpIsStripped(c1: Cond, c2: Cond)
    requires c1.v.kind.UnOp? && c2.v.kind.BinOp?
    ensures Equal(c1, c2) <==> Equal(Cond(c2.v, c2.val), Cond(c1.v.kind.x, c1.val))
  {
  }

  /** Against a stored binary operation, a query that is neither a unary nor a
      binary operation never matches. */
  lemma QueriedOpaqueMissesBinOp(c1: Cond, c2: Cond)
    requires !c1.v.kind.UnOp? && !c1.v.kind.BinOp? && c2.v.kind.BinOp?
    ensures !Equal(c1, c2)
  {
  }

  /** Stripping `!` keeps the truth value: every condition matches the stored
      negation of its own value under the same truth value. */
  lemma NotKeepsTruthValue(e: Value, i: Id, v: bool)
    ensures Equal(Cond(e, v), Cond(Value(i, UnOp(Not, e)), v))
  {
  }

  /** ... and no condition matches its stored negation under the inverted
      truth value. */
  lemma NotDoesNotInvert(e: Value, i: Id, v: bool)
    ensures !Equal(Cond(e, !v), Cond(Value(i, UnOp(Not, e)), v))
  {
  }

  /** Operand comparison is an equivalence: every operand equals itself, and
      equality of values is symmetric and transitive, as interface equality
      on constants and node identity both are. */
  lemma EqualValueIsEquivalence(v1: Value, v2: Value, v3: Value)
    ensures EqualValue(v1, v1)
    ensures EqualValue(v1, v2) ==> EqualValue(v2, v1)
    ensures EqualValue(v1, v2) && EqualValue(v2, v3) ==> EqualValue(v1, v3)
  {
  }

  /** Matching two `==` (or two `!=`) comparisons under the same truth value
      does not depend on which one is stored: the operand comparison is
      symmetric, and the swapped-operand case covers the mirror image. */
  lemma EqualityMatchIsSymmetric(i1: Id, i2: Id, op: Op, x1: Value, y1: Value, x2: Value, y2: Value, v: bool)
    requires op.IsEquality()
    ensures Equal(Cond(Value(i1, BinOp(op, x1, y1)), v), Cond(Value(i2, BinOp(op, x2, y2)), v)) <==>
            Equal(Cond(Value(i2, BinOp(op, x2, y2)), v), Cond(Value(i1, BinOp(op, x1, y1)), v))
  {
    var a, b := Cond(Value(i1, BinOp(op, x1, y1)), v), Cond(Value(i2, BinOp(op, x2, y2)), v);
    EqualBetweenBinOps(a, b);
    EqualBetweenBinOps(b, a);
    EqualValueIsEquivalence(x1, x2, y2);
    EqualValueIsEquivalence(y1, y2, x2);
    EqualValueIsEquivalence(x1, y2, x2);
    EqualValueIsEquivalence(y1, x2, y2);
  }

  /** Two string constants are equal values when both are the shared empty
      string, and never when they are separately allocated non-empty strings,
      even with the same contents. */
  lemma StringConstants(i1: Id, i2: Id, s: string, cell1: nat, cell2: nat)
    ensures EqualValue(Value(i1, Const(EmptyStringLit)), Value(i2, Const(EmptyStringLit)))
    ensures cell1 != cell2 ==>
              !EqualValue(Value(i1, Const(StringLit(s, cell1))), Value(i2, Const(StringLit(s, cell2))))
  {
  }
}
