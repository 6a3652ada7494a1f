/** The verdict of the whole analyzer on small concrete programs: one
    function whose entry block branches on an outer condition and whose
    second block, entered from the first, branches on an inner one. */
module Scenarios {
  import opened Ssa
  import opened Conditions
  import opened PathVariance
  import opened Store
  import opened Driver
  import ConditionLaws

  /** `a := f()` and `b := g()`: call results that are not path-variant. */
  const A: Value := Value(Node(1), Call(Value(Node(10), Function("f")), []))
  const B: Value := Value(Node(2), Call(Value(Node(11), Function("g")), []))

  /** The outer `a < b` and, as separate nodes, an inner `a < b` and `a >= b`. */
  const OuterLess: Value := Value(Node(3), BinOp(Lss, A, B))
  const InnerLess: Value := Value(Node(4), BinOp(Lss, A, B))
  const InnerGeq: Value := Value(Node(5), BinOp(Geq, A, B))

  /** Two calls `p.Load()` on a parameter `p`. */
  const P: Value := Value(Node(7), Parameter)
  const OuterLoad: Value := Value(Node(6), Call(Value(Node(12), Function("Load")), [P]))
  const InnerLoad: Value := Value(Node(8), Call(Value(Node(12), Function("Load")), [P]))

  /** `a == "x"` twice: each literal "x" is its own constant node, and each
      node's string value sits in its own allocation. */
  const OuterIsX: Value := Value(Node(20), BinOp(Eql, A, Value(Node(21), Const(StringLit("x", 1)))))
  const InnerIsX: Value := Value(Node(22), BinOp(Eql, A, Value(Node(23), Const(StringLit("x", 2)))))

  /** `a == 1` twice, with the integer held by value. */
  const OuterIsOne: Value := Value(Node(24), BinOp(Eql, A, Value(Node(25), Const(IntLit(1)))))
  const InnerIsOne: Value := Value(Node(26), BinOp(Eql, A, Value(Node(27), Const(IntLit(1)))))

  /** `if outer { if inner { … } }`: block 0 branches on `outer` and block 1,
      entered from block 0, branches on `inner`. */
  function Nested(outer: Value, inner: Value): seq<Func> {
    [Func([Block([], [Step, If(outer)]), Block([0], [Step, If(inner)])])]
  }

  /** A store holding one fact settles a query exactly when the query is
      that key or matches it. */
  lemma SingleFactLookup(pc: PreCond, k: Value, v: Value, val: bool)
    requires pc.m == map[k := true]
    ensures Store.Lookup(pc, v, val) <==> v == k || Equal(Cond(v, val), Cond(k, true))
  {
    assert k in pc.m && pc.m[k] == true;
    if exists c :: c in pc.m && Equal(Cond(v, val), Cond(c, pc.m[c])) {
      var c :| c in pc.m && Equal(Cond(v, val), Cond(c, pc.m[c]));
      assert c == k;
    }
  }

  /** Phase one on `Nested(outer, inner)`: the entry block starts with no
      facts, and the inner block holds the outer condition as true unless
      that condition is path-variant. */
  lemma NestedStores(outer: Value, inner: Value, stores: map<BlockRef, PreCond>)
    requires BlockRef(0, 0) in stores && BlockRef(0, 1) in stores
    requires forall r :: r in stores ==>
               ValidRef(Nested(outer, inner), r)
               && stores[r].m == ExpectedFacts(Nested(outer, inner)[r.fn], r.fn, r.index, stores)
    ensures stores[BlockRef(0, 0)].m == map[]
    ensures stores[BlockRef(0, 1)].m == if HasPhi(outer) then map[] else map[outer := true]
  {
    var f := Nested(outer, inner)[0];
    var entry, inner' := BlockRef(0, 0), BlockRef(0, 1);
    assert OfferedFacts([], entry) == {};
    assert Asserted({}) == map[];
    assert stores[entry].m == map[];
    assert ParentStores(f, 0, 1, stores, 1) == [stores[entry]];
    assert OfferedFacts([stores[entry]], inner') == {};
    assert SeedFacts(f, 1, map[], 1) == PutTrue(map[], outer);
  }

  /** Phase two on `Nested(outer, inner)` once the entry block's store is
      known to be empty: no report for the entry block, and for the inner
      block exactly the verdict its store gives. */
  lemma NestedReports(outer: Value, inner: Value, stores: map<BlockRef, PreCond>)
    requires forall r :: ValidRef(Nested(outer, inner), r) ==> r in stores
    requires BlockRef(0, 0) in stores && stores[BlockRef(0, 0)].m == map[]
    requires BlockRef(0, 1) in stores
    ensures AllReports(Nested(outer, inner), stores)
            == ReportOf(BlockRef(0, 1), Verdict(stores[BlockRef(0, 1)], Block([0], [Step, If(inner)])))
  {
    var funcs := Nested(outer, inner);
    var verdict := Verdicts(funcs, stores);
    assert ValidRef(funcs, BlockRef(0, 0)) && ValidRef(funcs, BlockRef(0, 1));
    assert verdict(BlockRef(0, 0)) == None;
    assert BlockReports(0, verdict, 1) == [];
    assert verdict(BlockRef(0, 1)) == Verdict(stores[BlockRef(0, 1)], Block([0], [Step, If(inner)]));
    assert BlockReports(0, verdict, |funcs[0].blocks|) == ReportOf(BlockRef(0, 1), verdict(BlockRef(0, 1)));
    assert FuncReports(funcs, verdict, 1) == BlockReports(0, verdict, |funcs[0].blocks|);
  }

  /** What Run reports on `Nested(outer, inner)`: nothing for the entry
      block, whose store is empty, and for the inner block exactly the
      verdict its store gives. */
  method RunNested(outer: Value, inner: Value) returns (reports: seq<Report>, innerStore: PreCond)
    ensures innerStore.m == if HasPhi(outer) then map[] else map[outer := true]
    ensures reports == match Verdict(innerStore, Block([0], [Step, If(inner)]))
                       case None => []
                       case Some(val) => [Report(BlockRef(0, 1), val)]
  {
    var funcs := Nested(outer, inner);
    var stores;
    stores, reports := Run(funcs);
    assert ValidRef(funcs, BlockRef(0, 0)) && ValidRef(funcs, BlockRef(0, 1));
    NestedStores(outer, inner, stores);
    NestedReports(outer, inner, stores);
    innerStore := stores[BlockRef(0, 1)];
  }

  lemma CallsAreNotVariant()
    ensures !HasPhi(A) && !HasPhi(B)
  {
    assert !HasPhi(A.kind.callee);
    assert !HasPhi(B.kind.callee);
  }

  /** `if a < b { if a < b { … } }`: the inner condition is reported always true. */
  method RepeatedConditionIsAlwaysTrue() returns (reports: seq<Report>)
    ensures reports == [Report(BlockRef(0, 1), true)]
  {
    var pc;
    reports, pc := RunNested(OuterLess, InnerLess);
    CallsAreNotVariant();
    ConditionLaws.EqualBetweenBinOps(Cond(InnerLess, false), Cond(OuterLess, true));
    ConditionLaws.EqualBetweenBinOps(Cond(InnerLess, true), Cond(OuterLess, true));
    SingleFactLookup(pc, OuterLess, InnerLess, false);
    SingleFactLookup(pc, OuterLess, InnerLess, true);
  }

  /** `if a < b { if a >= b { … } }`: as the converse step is written the
      inner condition is reported always TRUE, where it is in fact always false. */
  method ContradictedConditionIsReportedTrue() returns (reports: seq<Report>)
    ensures reports == [Report(BlockRef(0, 1), true)]
  {
    var pc;
    reports, pc := RunNested(OuterLess, InnerGeq);
    CallsAreNotVariant();
    ConditionLaws.EqualBetweenBinOps(Cond(InnerGeq, false), Cond(OuterLess, true));
    ConditionLaws.EqualBetweenBinOps(Cond(InnerGeq, true), Cond(OuterLess, true));
    assert Negated(Geq) == Lss;
    SingleFactLookup(pc, OuterLess, InnerGeq, false);
    SingleFactLookup(pc, OuterLess, InnerGeq, true);
  }

  /** `c := a < b; if c { if c { … } }`: the inner branch tests the very key
      the store holds as true, and the exact-key hit answers the `false` query
      first, so it is reported always FALSE. */
  method SameNodeIsReportedFalse() returns (reports: seq<Report>)
    ensures reports == [Report(BlockRef(0, 1), false)]
  {
    var pc;
    reports, pc := RunNested(OuterLess, OuterLess);
    CallsAreNotVariant();
  }

  /** `if p.Load() { if p.Load() { … } }` with `p` a parameter: the call is
      path-variant, so it is never stored and nothing is reported. */
  method LoadThroughParameterIsNotCarried() returns (reports: seq<Report>)
    ensures reports == []
  {
    assert HasPhi(OuterLoad.kind.args[0]);
    var pc;
    reports, pc := RunNested(OuterLoad, InnerLoad);
  }

  /** `if a == "x" { if a == "x" { … } }`: the two string constants are
      separate allocations, so the inner condition does not match the outer
      one and nothing is reported. */
  method SeparateStringConstantsDoNotMatch() returns (reports: seq<Report>)
    ensures reports == []
  {
    var pc;
    reports, pc := RunNested(OuterIsX, InnerIsX);
    CallsAreNotVariant();
    ConditionLaws.StringConstants(Node(21), Node(23), "x", 1, 2);
    ConditionLaws.StringConstants(Node(23), Node(21), "x", 2, 1);
    ConditionLaws.EqualBetweenBinOps(Cond(InnerIsX, false), Cond(OuterIsX, true));
    ConditionLaws.EqualBetweenBinOps(Cond(InnerIsX, true), Cond(OuterIsX, true));
    SingleFactLookup(pc, OuterIsX, InnerIsX, false);
    SingleFactLookup(pc, OuterIsX, InnerIsX, true);
  }

  /** `if a == 1 { if a == 1 { … } }`: small integers are held by value, so
      the inner condition matches and is reported always true. */
  method EqualIntegerConstantsMatch() returns (reports: seq<Report>)
    ensures reports == [Report(BlockRef(0, 1), true)]
  {
    var pc;
    reports, pc := RunNested(OuterIsOne, InnerIsOne);
    CallsAreNotVariant();
    ConditionLaws.EqualBetweenBinOps(Cond(InnerIsOne, false), Cond(OuterIsOne, true));
    ConditionLaws.EqualBetweenBinOps(Cond(InnerIsOne, true), Cond(OuterIsOne, true));
    SingleFactLookup(pc, OuterIsOne, InnerIsOne, false);
    SingleFactLookup(pc, OuterIsOne, InnerIsOne, true);
  }

  /** A loop: block 0 branches on `c` into block 1, which branches on `c`
      again into the loop head, block 2; block 2 is also entered from block
      3, which branches on `c` and jumps back. */
  function Loop(c: Value): seq<Func> {
    [Func([Block([], [If(c)]), Block([0], [If(c)]), Block([1, 3], [Jump]), Block([2], [If(c)])])]
  }

  /** Phase one on `Loop(c)`. Block 2 puts `c` first for predecessor 1 and
      then for predecessor 3, so its provenance names block 3, the last; as
      a parent of block 3 it therefore does not offer `c`, and block 3 starts
      with no facts. */
  lemma LoopStores(c: Value, stores: map<BlockRef, PreCond>)
    requires !HasPhi(c)
    requires forall r :: ValidRef(Loop(c), r) ==> r in stores
    requires forall r :: r in stores ==>
               ValidRef(Loop(c), r)
               && stores[r].m == ExpectedFacts(Loop(c)[r.fn], r.fn, r.index, stores)
               && stores[r].from == SeedFroms(Loop(c)[r.fn], r.fn, r.index, |Loop(c)[r.fn].blocks[r.index].preds|)
    ensures BlockRef(0, 0) in stores && stores[BlockRef(0, 0)].m == map[]
    ensures BlockRef(0, 1) in stores && stores[BlockRef(0, 1)].m == map[c := true]
    ensures BlockRef(0, 2) in stores && stores[BlockRef(0, 2)].from == map[c := BlockRef(0, 3)]
    ensures BlockRef(0, 3) in stores && stores[BlockRef(0, 3)].m == map[]
  {
    var f := Loop(c)[0];
    assert ValidRef(Loop(c), BlockRef(0, 0)) && ValidRef(Loop(c), BlockRef(0, 1));
    assert ValidRef(Loop(c), BlockRef(0, 2)) && ValidRef(Loop(c), BlockRef(0, 3));
    LoopEntry(c, stores);
    LoopHead(c, stores);
    LoopBottom(c, stores);
  }

  /** Blocks 0 and 1 of `Loop(c)`: as in `Nested`. */
  lemma LoopEntry(c: Value, stores: map<BlockRef, PreCond>)
    requires !HasPhi(c)
    requires BlockRef(0, 0) in stores && BlockRef(0, 1) in stores
    requires stores[BlockRef(0, 0)].m == ExpectedFacts(Loop(c)[0], 0, 0, stores)
    requires stores[BlockRef(0, 1)].m == ExpectedFacts(Loop(c)[0], 0, 1, stores)
    requires stores[BlockRef(0, 1)].from == SeedFroms(Loop(c)[0], 0, 1, 1)
    ensures stores[BlockRef(0, 0)].m == map[]
    ensures stores[BlockRef(0, 1)].m == map[c := true]
    ensures stores[BlockRef(0, 1)].from == map[c := BlockRef(0, 0)]
  {
    var f := Loop(c)[0];
    var b0, b1 := BlockRef(0, 0), BlockRef(0, 1);
    assert OfferedFacts([], b0) == {};
    assert stores[b0].m == map[];
    assert ParentStores(f, 0, 1, stores, 1) == [stores[b0]];
    assert OfferedFacts([stores[b0]], b1) == {};
    assert SeedFacts(f, 1, map[], 1) == map[c := true];
  }

  /** Block 2 of `Loop(c)`, the loop head: block 1 offers `c` (its
      provenance names block 0), putting `c` for predecessor 1 removes the
      key again, and putting it for predecessor 3 adds it back, so the
      provenance names block 3. */
  lemma LoopHead(c: Value, stores: map<BlockRef, PreCond>)
    requires !HasPhi(c)
    requires BlockRef(0, 1) in stores && BlockRef(0, 2) in stores
    requires stores[BlockRef(0, 1)].m == map[c := true]
    requires stores[BlockRef(0, 1)].from == map[c := BlockRef(0, 0)]
    requires stores[BlockRef(0, 2)].m == ExpectedFacts(Loop(c)[0], 0, 2, stores)
    requires stores[BlockRef(0, 2)].from == SeedFroms(Loop(c)[0], 0, 2, 2)
    ensures stores[BlockRef(0, 2)].m == map[c := true]
    ensures stores[BlockRef(0, 2)].from == map[c := BlockRef(0, 3)]
  {
    var f := Loop(c)[0];
    var b1, b2 := BlockRef(0, 1), BlockRef(0, 2);
    assert ParentStores(f, 0, 2, stores, 1) == [stores[b1]];
    assert ParentStores(f, 0, 2, stores, 2) == [stores[b1]];
    var ps := [stores[b1]];
    assert c in ps[0].m && Offers(ps[0], c, b2) && !HasPhi(c);
    assert c in OfferedFacts(ps, b2);
    assert forall k :: k in OfferedFacts([stores[b1]], b2) ==> k in stores[b1].m;
    assert OfferedFacts([stores[b1]], b2) == {c};
    assert Asserted({c}) == map[c := true];
    LoopHeadSeed(c);
    LoopHeadFrom(c);
  }

  /** The loop head's facts: putting `c` for predecessor 1 removes the
      inherited key, putting it for predecessor 3 adds it back. */
  lemma LoopHeadSeed(c: Value)
    requires !HasPhi(c)
    ensures SeedFacts(Loop(c)[0], 2, map[c := true], 2) == map[c := true]
  {
    assert SeedFacts(Loop(c)[0], 2, map[c := true], 1) == map[];
  }

  /** The loop head's provenance: `c` is put for predecessor 1, then again
      for predecessor 3, which overwrites it. */
  lemma LoopHeadFrom(c: Value)
    requires !HasPhi(c)
    ensures SeedFroms(Loop(c)[0], 0, 2, 2) == map[c := BlockRef(0, 3)]
  {
    assert SeedFroms(Loop(c)[0], 0, 2, 1) == map[c := BlockRef(0, 1)];
  }

  /** Block 3 of `Loop(c)`: its only parent, the loop head, recorded `c` as
      coming from block 3 itself, so it offers nothing; block 2 ends in a
      jump, so nothing is put either. */
  lemma LoopBottom(c: Value, stores: map<BlockRef, PreCond>)
    requires BlockRef(0, 2) in stores && BlockRef(0, 3) in stores
    requires stores[BlockRef(0, 2)].m == map[c := true]
    requires stores[BlockRef(0, 2)].from == map[c := BlockRef(0, 3)]
    requires stores[BlockRef(0, 3)].m == ExpectedFacts(Loop(c)[0], 0, 3, stores)
    ensures stores[BlockRef(0, 3)].m == map[]
  {
    var f := Loop(c)[0];
    var b2, b3 := BlockRef(0, 2), BlockRef(0, 3);
    assert ParentStores(f, 0, 3, stores, 1) == [stores[b2]];
    assert !Offers(stores[b2], c, b3);
    assert OfferedFacts([stores[b2]], b3) == {};
    assert SeedFacts(f, 3, map[], 1) == map[];
  }

  /** Phase two on `Loop(c)` with those stores: only block 1 is reported,
      as always false, because its condition is itself the key. */
  lemma LoopReports(c: Value, stores: map<BlockRef, PreCond>)
    requires forall r :: ValidRef(Loop(c), r) ==> r in stores
    requires BlockRef(0, 0) in stores && stores[BlockRef(0, 0)].m == map[]
    requires BlockRef(0, 1) in stores && stores[BlockRef(0, 1)].m == map[c := true]
    requires BlockRef(0, 3) in stores && stores[BlockRef(0, 3)].m == map[]
    ensures AllReports(Loop(c), stores) == [Report(BlockRef(0, 1), false)]
  {
    var funcs := Loop(c);
    var verdict := Verdicts(funcs, stores);
    assert ValidRef(funcs, BlockRef(0, 0)) && ValidRef(funcs, BlockRef(0, 1));
    assert ValidRef(funcs, BlockRef(0, 2)) && ValidRef(funcs, BlockRef(0, 3));
    assert verdict(BlockRef(0, 0)) == None;
    assert verdict(BlockRef(0, 1)) == Some(false);
    assert verdict(BlockRef(0, 2)) == None;
    assert verdict(BlockRef(0, 3)) == None;
    assert BlockReports(0, verdict, 2) == [Report(BlockRef(0, 1), false)];
    assert BlockReports(0, verdict, 4) == [Report(BlockRef(0, 1), false)];
    assert FuncReports(funcs, verdict, 1) == BlockReports(0, verdict, |funcs[0].blocks|);
  }

  /** The loop above branching three times on one call result `a < b`:
      block 1 is reported always false, as its condition is itself a key,
      and the branch at the bottom of the loop is not reported, because the
      loop head records the condition as coming from that very branch. */
  method LoopReportsOnlyTheFirstRepeat() returns (reports: seq<Report>)
    ensures reports == [Report(BlockRef(0, 1), false)]
  {
    CallsAreNotVariant();
    reports := RunLoop(OuterLess);
  }

  /** What Run reports on `Loop(c)` for a condition that is not path-variant. */
  method RunLoop(c: Value) returns (reports: seq<Report>)
    requires !HasPhi(c)
    ensures reports == [Report(BlockRef(0, 1), false)]
  {
    var funcs := Loop(c);
    var stores;
    stores, reports := Run(funcs);
    LoopStores(c, stores);
    LoopReports(c, stores);
  }

  /** A store without facts settles nothing. */
  lemma EmptyStoreSettlesNothing(b: BlockRef, blk: Block)
    ensures Verdict(PreCond(b, map[], map[], map[]), blk).None?
  {
  }
}
