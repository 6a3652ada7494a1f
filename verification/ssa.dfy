/** The slice of the SSA intermediate representation that the dead-condition
    analyzer inspects: value nodes with identity, instructions, basic blocks
    and functions. */
module Ssa {

  datatype Option<+T> = None | Some(value: T)

  /** Go token kinds used as operators of unary and binary operations.
      Tokens the analyzer never singles out are folded into OtherToken. */
  datatype Op = Eql | Neq | Lss | Gtr | Leq | Geq | Not | OtherToken(code: nat)
  {
    predicate IsEquality() { this == Eql || this == Neq }
    predicate IsOrdering() { this == Lss || this == Gtr || this == Leq || this == Geq }
    predicate IsComparison() { IsEquality() || IsOrdering() }
  }

  /** The comparison that holds exactly when `op` does not. */
  function Negated(op: Op): (r: Op)
    requires op.IsComparison()
    ensures r.IsComparison() && r != op
    ensures r.IsEquality() <==> op.IsEquality()
  {
    match op
    case Eql => Neq
    case Neq => Eql
    case Lss => Geq
    case Gtr => Leq
    case Leq => Gtr
    case Geq => Lss
  }

  /** The value of a constant node, as the Go constant package represents it.
      Representations held by value (nil, booleans, integers that fit in 64
      bits, the one shared empty string, the unknown value) are equal when
      their contents are. Representations held behind a pointer (larger
      integers, floating-point and rational numbers, non-empty strings)
      carry the `cell` they were allocated in, so two of them are equal only
      when they are the same allocation, whatever their contents. */
  datatype Literal =
    | NilLit
    | BoolLit(b: bool)
    | IntLit(i: int)
    | EmptyStringLit
    | UnknownLit
    | BigIntLit(big: int, cell: nat)
    | FloatLit(cell: nat)
    | StringLit(s: string, cell: nat)

  /** Node identity: the analyzer compares nodes by pointer. A node of the
      program carries a Node handle; a node allocated by the analyzer itself
      as a modified copy of another carries CopyOf. */
  datatype Id = Node(n: nat) | CopyOf(orig: Id)

  /** One state of a select statement: the channel and the optional value sent. */
  datatype SelectState = SelectState(chan: Value, send: Option<Value>)

  /** Node kinds. Kinds whose operands the analyzer never looks at
      (Phi, Parameter, Alloc, Field, FieldAddr, IndexAddr, Next) carry none.
      `Other` stands for every SSA kind the path-variance classifier does not
      name (a slice-to-array-pointer conversion, say); like the named
      constants, functions, globals, free variables and builtins, it falls
      to the classifier's default. */
  datatype Kind =
    | Phi
    | Parameter
    | Alloc
    | Field
    | FieldAddr
    | IndexAddr
    | Next
    | UnOp(op: Op, x: Value)
    | BinOp(op: Op, x: Value, y: Value)
    | Call(callee: Value, args: seq<Value>)
    | ChangeType(x: Value)
    | ChangeInterface(x: Value)
    | Convert(x: Value)
    | Extract(tuple: Value, index: nat)
    | Index(x: Value, idx: Value)
    | Lookup(x: Value, idx: Value)
    | MakeChan(size: Value)
    | MakeClosure(fn: Value, bindings: seq<Value>)
    | MakeInterface(x: Value)
    | MakeMap(reserve: Option<Value>)
    | MakeSlice(len: Value, cap: Value)
    | Range(x: Value)
    | Select(states: seq<SelectState>)
    | Slice(x: Value, low: Option<Value>, high: Option<Value>, max: Option<Value>)
    | TypeAssert(x: Value)
    | Function(name: string)
    | Const(lit: Literal)
    | Global
    | FreeVar
    | Builtin
    | Other

  /** An SSA value: a node identity together with what the node computes.
      Two values are the same node exactly when they are equal. */
  datatype Value = Value(id: Id, kind: Kind)

  /** Instructions, as far as the analyzer distinguishes them: only a block's
      final `If` matters; every other instruction is a Step. */
  datatype Instr = If(cond: Value) | Jump | Return | Step

  /** A basic block: predecessor blocks, given as indices into the enclosing
      function's block list, and the instruction list. */
  datatype Block = Block(preds: seq<nat>, instrs: seq<Instr>)

  /** A source function: its blocks in the order the builder lists them. */
  datatype Func = Func(blocks: seq<Block>)

  /** Identity of a block across the whole package: function index and block index. */
  datatype BlockRef = BlockRef(fn: nat, index: nat)

  /** Every predecessor reference names a block of the same function. */
  predicate WellFormedFunc(f: Func) {
    forall b, j :: 0 <= b < |f.blocks| && 0 <= j < |f.blocks[b].preds| ==> f.blocks[b].preds[j] < |f.blocks|
  }

  predicate WellFormed(funcs: seq<Func>) {
    forall i :: 0 <= i < |funcs| ==> WellFormedFunc(funcs[i])
  }
}
