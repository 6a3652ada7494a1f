/** The path-variance classifier: which values the analyzer refuses to carry
    from one block to another, because two evaluations of the same node may
    differ (merges, parameters, memory, iteration state, and anything built
    from them). */
module PathVariance {
  import opened Ssa

  /** The kinds that are path-variant in themselves. */
  predicate VariantLeaf(v: Value) {
    v.kind.Phi? || v.kind.Parameter? || v.kind.Alloc? || v.kind.Field?
    || v.kind.FieldAddr? || v.kind.IndexAddr? || v.kind.Next?
  }

  predicate HasPhiOpt(o: Option<Value>)
    decreases o, 0
  {
    match o
    case None => false
    case Some(x) => HasPhi(x)
  }

  /** Whether `v` is path-variant: a variant kind, or one of the operands the
      classifier follows for its kind is. A missing operand counts as not
      variant; the index of an Index, constants, functions, globals, free
      variables, builtins and unnamed kinds are not followed. */
  predicate HasPhi(v: Value): (r: bool)
    ensures VariantLeaf(v) ==> r
    ensures (v.kind.Const? || v.kind.Function? || v.kind.Global? || v.kind.FreeVar? || v.kind.Builtin?
             || v.kind.Other?) ==> !r
    decreases v, 1
  {
    match v.kind
    case Phi => true
    case Parameter => true
    case Alloc => true
    case Field => true
    case FieldAddr => true
    case IndexAddr => true
    case Next => true
    case UnOp(_, x) => HasPhi(x)
    case BinOp(_, x, y) => HasPhi(x) || HasPhi(y)
    case Call(callee, args) =>
      HasPhi(callee) || exists i :: 0 <= i < |args| && HasPhi(args[i])
    case ChangeType(x) => HasPhi(x)
    case ChangeInterface(x) => HasPhi(x)
    case Convert(x) => HasPhi(x)
    case Extract(tuple, _) => HasPhi(tuple)
    case Index(x, _) => HasPhi(x)
    case Lookup(x, idx) => HasPhi(x) || HasPhi(idx)
    case MakeChan(size) => HasPhi(size)
    case MakeClosure(fn, bindings) =>
      HasPhi(fn) || exists i :: 0 <= i < |bindings| && HasPhi(bindings[i])
    case MakeInterface(x) => HasPhi(x)
    case MakeMap(reserve) => HasPhiOpt(reserve)
    case MakeSlice(len, cap) => HasPhi(len) || HasPhi(cap)
    case Range(x) => HasPhi(x)
    case Select(states) =>
      exists i :: 0 <= i < |states| && (HasPhi(states[i].chan) || HasPhiOpt(states[i].send))
    case Slice(x, low, high, max) => HasPhi(x) || HasPhiOpt(low) || HasPhiOpt(high) || HasPhiOpt(max)
    case TypeAssert(x) => HasPhi(x)
    case Function(_) => false
    case Const(_) => false
    case Global => false
    case FreeVar => false
    case Builtin => false
    case Other => false
  }

  function OptSeq(o: Option<Value>): (r: seq<Value>)
    ensures forall w :: w in r <==> o == Some(w)
  {
    match o
    case None => []
    case Some(x) => [x]
  }

  function StateOperands(states: seq<SelectState>): (r: seq<Value>)
    ensures forall w :: w in r <==>
              exists i :: 0 <= i < |states| && (w == states[i].chan || states[i].send == Some(w))
  {
    if |states| == 0 then []
    else
      var rest := StateOperands(states[1..]);
      assert forall w :: (exists i :: 1 <= i < |states| && (w == states[i].chan || states[i].send == Some(w)))
                     ==> w in rest by {
        forall w | exists i :: 1 <= i < |states| && (w == states[i].chan || states[i].send == Some(w))
          ensures w in rest
        {
          var i :| 1 <= i < |states| && (w == states[i].chan || states[i].send == Some(w));
          assert states[1..][i - 1] == states[i];
        }
      }
      [states[0].chan] + OptSeq(states[0].send) + rest
  }

  /** The operand edges of the dependency graph: for each kind, the operands
      whose variance makes the value variant. */
  function Operands(v: Value): seq<Value>
  {
    match v.kind
    case UnOp(_, x) => [x]
    case BinOp(_, x, y) => [x, y]
    case Call(callee, args) => [callee] + args
    case ChangeType(x) => [x]
    case ChangeInterface(x) => [x]
    case Convert(x) => [x]
    case Extract(tuple, _) => [tuple]
    case Index(x, _) => [x]
    case Lookup(x, idx) => [x, idx]
    case MakeChan(size) => [size]
    case MakeClosure(fn, bindings) => [fn] + bindings
    case MakeInterface(x) => [x]
    case MakeMap(reserve) => OptSeq(reserve)
    case MakeSlice(len, cap) => [len, cap]
    case Range(x) => [x]
    case Select(states) => StateOperands(states)
    case Slice(x, low, high, max) => [x] + OptSeq(low) + OptSeq(high) + OptSeq(max)
    case TypeAssert(x) => [x]
    case _ => []
  }

  /** A walk along operand edges. */
  ghost predicate OperandPath(path: seq<Value>) {
    |path| > 0 && forall i :: 0 <= i < |path| - 1 ==> path[i + 1] in Operands(path[i])
  }

  /** Reference definition: `v` reaches a variant kind along operand edges. */
  ghost predicate ReachesVariant(v: Value) {
    exists path :: OperandPath(path) && path[0] == v && VariantLeaf(path[|path| - 1])
  }

  /** One step of the classifier: variant kind, or some followed operand is variant. */
  lemma HasPhiStep(v: Value)
    ensures HasPhi(v) <==> VariantLeaf(v) || exists w :: w in Operands(v) && HasPhi(w)
  {
    if v.kind.Call? {
      AnyOperandHasPhi([v.kind.callee] + v.kind.args);
      assert ([v.kind.callee] + v.kind.args)[1..] == v.kind.args;
    } else if v.kind.MakeClosure? {
      AnyOperandHasPhi([v.kind.fn] + v.kind.bindings);
      assert ([v.kind.fn] + v.kind.bindings)[1..] == v.kind.bindings;
    } else if v.kind.Select? {
      HasPhiStepSelect(v);
    } else if v.kind.Slice? {
      HasPhiStepSlice(v);
    } else if v.kind.MakeMap? {
      HasPhiStepMakeMap(v);
    } else {
      HasPhiStepFixed(v);
    }
  }

  lemma AnyOperandHasPhi(vs: seq<Value>)
    requires |vs| > 0
    ensures (exists w :: w in vs && HasPhi(w)) <==>
            HasPhi(vs[0]) || exists i :: 0 <= i < |vs[1..]| && HasPhi(vs[1..][i])
  {
    if exists w :: w in vs && HasPhi(w) {
      var w :| w in vs && HasPhi(w);
      var k :| 0 <= k < |vs| && vs[k] == w;
      if k > 0 { assert vs[1..][k - 1] == w; }
    }
  }

  lemma HasPhiStepFixed(v: Value)
    requires !v.kind.Call? && !v.kind.MakeClosure? && !v.kind.Select? && !v.kind.Slice? && !v.kind.MakeMap?
    ensures HasPhi(v) <==> VariantLeaf(v) || exists w :: w in Operands(v) && HasPhi(w)
  {
    if v.kind.BinOp? || v.kind.Lookup? || v.kind.MakeSlice? {
      HasPhiStepPair(v);
    } else if v.kind.UnOp? || v.kind.ChangeType? || v.kind.ChangeInterface? || v.kind.Convert?
              || v.kind.Extract? || v.kind.Index? || v.kind.MakeChan? || v.kind.MakeInterface?
              || v.kind.Range? || v.kind.TypeAssert? {
      if v.kind.UnOp? || v.kind.ChangeType? || v.kind.ChangeInterface? || v.kind.Convert? || v.kind.Extract? {
        HasPhiStepUnaryConvert(v);
      } else {
        HasPhiStepIndexRangeAssertMake(v);
      }
    } else {
      assert Operands(v) == [];
    }
  }

  /** The kinds with exactly two followed operands. */
  lemma HasPhiStepPair(v: Value)
    requires v.kind.BinOp? || v.kind.Lookup? || v.kind.MakeSlice?
    ensures HasPhi(v) <==> VariantLeaf(v) || exists w :: w in Operands(v) && HasPhi(w)
  {
    if exists w :: w in Operands(v) && HasPhi(w) {
      var w :| w in Operands(v) && HasPhi(w);
    }
  }

  /** Unary operations, the three conversions and tuple extraction: each
      follows its one operand. */
  lemma HasPhiStepUnaryConvert(v: Value)
    requires v.kind.UnOp? || v.kind.ChangeType? || v.kind.ChangeInterface? || v.kind.Convert? || v.kind.Extract?
    ensures HasPhi(v) <==> VariantLeaf(v) || exists w :: w in Operands(v) && HasPhi(w)
  {
    if exists w :: w in Operands(v) && HasPhi(w) {
      var w :| w in Operands(v) && HasPhi(w);
    }
  }

  /** Indexing, `range`, type assertions, `make(chan)` and boxing into an
      interface: each follows its one operand. */
  lemma HasPhiStepIndexRangeAssertMake(v: Value)
    requires v.kind.Index? || v.kind.MakeChan? || v.kind.MakeInterface? || v.kind.Range? || v.kind.TypeAssert?
    ensures HasPhi(v) <==> VariantLeaf(v) || exists w :: w in Operands(v) && HasPhi(w)
  {
    if exists w :: w in Operands(v) && HasPhi(w) {
      var w :| w in Operands(v) && HasPhi(w);
    }
  }

  lemma HasPhiStepSelect(v: Value)
    requires v.kind.Select?
    ensures HasPhi(v) <==> exists w :: w in Operands(v) && HasPhi(w)
  {
    var states := v.kind.states;
    if HasPhi(v) {
      var i :| 0 <= i < |states| && (HasPhi(states[i].chan) || HasPhiOpt(states[i].send));
      if HasPhi(states[i].chan) {
        assert states[i].chan in Operands(v);
      } else {
        assert states[i].send.value in Operands(v);
      }
    }
    if exists w :: w in Operands(v) && HasPhi(w) {
      var w :| w in Operands(v) && HasPhi(w);
      var i :| 0 <= i < |states| && (w == states[i].chan || states[i].send == Some(w));
      assert HasPhi(states[i].chan) || HasPhiOpt(states[i].send);
    }
  }

  lemma HasPhiStepSlice(v: Value)
    requires v.kind.Slice?
    ensures HasPhi(v) <==> exists w :: w in Operands(v) && HasPhi(w)
  {
    var x, low, high, max := v.kind.x, v.kind.low, v.kind.high, v.kind.max;
    if exists w :: w in Operands(v) && HasPhi(w) {
      var w :| w in Operands(v) && HasPhi(w);
      assert w == x || low == Some(w) || high == Some(w) || max == Some(w);
    }
    if HasPhi(v) {
      if HasPhi(x) { assert x in Operands(v); }
      else if HasPhiOpt(low) { assert low.value in Operands(v); }
      else if HasPhiOpt(high) { assert high.value in Operands(v); }
      else {
        assert HasPhiOpt(max);
        assert max.Some?;
        assert max.value in Operands(v);
      }
    }
  }

  lemma HasPhiStepMakeMap(v: Value)
    requires v.kind.MakeMap?
    ensures HasPhi(v) <==> exists w :: w in Operands(v) && HasPhi(w)
  {
    if HasPhi(v) {
      assert HasPhiOpt(v.kind.reserve);
      assert v.kind.reserve.Some?;
      assert v.kind.reserve.value in Operands(v);
    }
  }

  /** The classifier flags exactly the values that reach a variant kind along
      operand edges. */
  lemma {:induction false} HasPhiIffReachesVariant(v: Value)
    ensures HasPhi(v) <==> ReachesVariant(v)
  {
    if HasPhi(v) {
      var path := VariantPathFrom(v);
      assert OperandPath(path) && path[0] == v && VariantLeaf(path[|path| - 1]);
    }
    if ReachesVariant(v) {
      var path :| OperandPath(path) && path[0] == v && VariantLeaf(path[|path| - 1]);
      PathEndsVariant(path);
    }
  }

  /** A witness walk from a flagged value to a variant kind. */
  lemma {:induction false} VariantPathFrom(v: Value) returns (path: seq<Value>)
    requires HasPhi(v)
    ensures OperandPath(path) && path[0] == v && VariantLeaf(path[|path| - 1])
    decreases v
  {
    HasPhiStep(v);
    if VariantLeaf(v) {
      path := [v];
    } else {
      var w :| w in Operands(v) && HasPhi(w);
      OperandSmaller(v, w);
      var rest := VariantPathFrom(w);
      path := [v] + rest;
      assert path[1..] == rest;
      forall i | 0 <= i < |path| - 1
        ensures path[i + 1] in Operands(path[i])
      {
        if i > 0 {
          assert path[i] == rest[i - 1] && path[i + 1] == rest[i];
        }
      }
    }
  }

  /** Every value at the start of a walk ending in a variant kind is flagged. */
  lemma {:induction false} PathEndsVariant(path: seq<Value>)
    requires OperandPath(path) && VariantLeaf(path[|path| - 1])
    ensures HasPhi(path[0])
    decreases |path|
  {
    HasPhiStep(path[0]);
    if |path| > 1 {
      var rest := path[1..];
      assert OperandPath(rest) by {
        forall i | 0 <= i < |rest| - 1
          ensures rest[i + 1] in Operands(rest[i])
        {
          assert rest[i] == path[i + 1] && rest[i + 1] == path[i + 2];
        }
      }
      PathEndsVariant(rest);
      assert path[1] in Operands(path[0]);
    }
  }

  /** Operand edges go to structurally smaller values. */
  lemma OperandSmaller(v: Value, w: Value)
    requires w in Operands(v)
    ensures w < v
  {
    match v.kind
    case Call(callee, args) =>
      if w != callee { assert w in args; }
    case MakeClosure(fn, bindings) =>
      if w != fn { assert w in bindings; }
    case Select(states) =>
      var i :| 0 <= i < |states| && (w == states[i].chan || states[i].send == Some(w));
      assert states[i] in states;
    case _ =>
  }
}
