/** The two-phase driver: build one precondition store per block, then check
    each block's own branch condition against its store. Reports are reduced
    to the block and the truth value the condition is said to always have. */
module Driver {
  import opened Ssa
  import opened PathVariance
  import opened Store

  /** The condition of the block's terminating `If`, if it ends in one. */
  function IfInst(b: Block): (r: Option<Value>)
    ensures r.Some? <==> |b.instrs| > 0 && b.instrs[|b.instrs| - 1].If?
    ensures r.Some? ==> r.value == b.instrs[|b.instrs| - 1].cond
  {
    if |b.instrs| == 0 then None
    else match b.instrs[|b.instrs| - 1]
      case If(cond) => Some(cond)
      case _ => None
  }

  /** Only the last instruction decides: an `If` earlier in the block does not count. */
  lemma IfInstLooksAtLastOnly(preds: seq<nat>, instrs: seq<Instr>, c: Value, last: Instr)
    ensures IfInst(Block(preds, instrs + [If(c)])) == Some(c)
    ensures !last.If? ==> IfInst(Block(preds, [If(c)] + instrs + [last])).None?
  {
  }

  predicate ValidRef(funcs: seq<Func>, r: BlockRef) {
    r.fn < |funcs| && r.index < |funcs[r.fn].blocks|
  }

  function BlockAt(funcs: seq<Func>, r: BlockRef): Block
    requires ValidRef(funcs, r)
  {
    funcs[r.fn].blocks[r.index]
  }

  /** Processing order: functions in order, blocks of a function in order. */
  predicate Before(a: BlockRef, b: BlockRef) {
    a.fn < b.fn || (a.fn == b.fn && a.index < b.index)
  }

  /** `k` is the branch condition of some predecessor of block `bi`. */
  ghost predicate PredCondition(f: Func, bi: nat, k: Value)
    requires WellFormedFunc(f) && bi < |f.blocks|
  {
    exists j :: 0 <= j < |f.blocks[bi].preds| && IfInst(f.blocks[f.blocks[bi].preds[j]]) == Some(k)
  }

  /** `(k, val)` is offered to block `bi` of function `fi` by the store of an
      earlier-processed predecessor. */
  ghost predicate Inherited(f: Func, fi: nat, bi: nat, stores: map<BlockRef, PreCond>, k: Value, val: bool)
    requires bi < |f.blocks|
  {
    var preds := f.blocks[bi].preds;
    exists j :: 0 <= j < |preds| && preds[j] < bi && BlockRef(fi, preds[j]) in stores
      && Offers(stores[BlockRef(fi, preds[j])], k, BlockRef(fi, bi)) && stores[BlockRef(fi, preds[j])].m[k] == val
  }

  /** Where a fact of a block's store comes from: an earlier predecessor's
      store, or a predecessor's branch condition, asserted true. */
  ghost predicate FactOrigin(f: Func, fi: nat, bi: nat, stores: map<BlockRef, PreCond>, k: Value, val: bool)
    requires WellFormedFunc(f) && bi < |f.blocks|
  {
    Inherited(f, fi, bi, stores, k, val) || (val && PredCondition(f, bi, k))
  }

  /** The store of block `bi` of function `fi`, given the stores of the blocks
      processed so far: merge the stores of the predecessors already
      processed, then put each predecessor's branch condition as true, with
      that predecessor as origin. */
  method BuildBlock(f: Func, fi: nat, bi: nat, stores: map<BlockRef, PreCond>) returns (pc: PreCond)
    requires WellFormedFunc(f) && bi < |f.blocks|
    requires forall p :: 0 <= p < |f.blocks| ==> (BlockRef(fi, p) in stores <==> p < bi)
    ensures pc.block == BlockRef(fi, bi)
    ensures NoVariantFacts(pc)
    ensures forall k :: k in pc.m ==> FactOrigin(f, fi, bi, stores, k, pc.m[k])
    ensures forall k :: k in pc.from <==> PredCondition(f, bi, k) && !HasPhi(k)
    ensures forall k :: k in pc.from ==>
              exists j :: 0 <= j < |f.blocks[bi].preds| && IfInst(f.blocks[f.blocks[bi].preds[j]]) == Some(k)
                && pc.from[k] == BlockRef(fi, f.blocks[bi].preds[j])
    ensures pc.from == SeedFroms(f, fi, bi, |f.blocks[bi].preds|)
    ensures (forall r :: r in stores ==> OnlyTrue(stores[r])) ==>
              OnlyTrue(pc) && pc.m == ExpectedFacts(f, fi, bi, stores)
  {
    var parents := Parents(f, fi, bi, stores);
    pc := NewPreCond(parents, BlockRef(fi, bi));
    if forall r :: r in stores ==> OnlyTrue(stores[r]) {
      ParentStoresOnlyTrue(f, fi, bi, stores, |f.blocks[bi].preds|);
    }
    pc := Seed(f, fi, bi, stores, pc);
  }

  /** The stores of those among the first `n` predecessors of block `bi`
      that were processed before it, in predecessor order. */
  function ParentStores(f: Func, fi: nat, bi: nat, stores: map<BlockRef, PreCond>, n: nat): seq<PreCond>
    requires WellFormedFunc(f) && bi < |f.blocks| && n <= |f.blocks[bi].preds|
  {
    if n == 0 then []
    else
      var p := f.blocks[bi].preds[n - 1];
      ParentStores(f, fi, bi, stores, n - 1)
        + (if p < bi && BlockRef(fi, p) in stores then [stores[BlockRef(fi, p)]] else [])
  }

  /** The fact map after putting as true the branch condition of each of the
      first `n` predecessors of block `bi` that ends in `If`, starting from
      the all-true fact map `m`. */
  function SeedFacts(f: Func, bi: nat, m: map<Value, bool>, n: nat): map<Value, bool>
    requires WellFormedFunc(f) && bi < |f.blocks| && n <= |f.blocks[bi].preds|
  {
    if n == 0 then m
    else
      var m' := SeedFacts(f, bi, m, n - 1);
      match IfInst(f.blocks[f.blocks[bi].preds[n - 1]])
      case None => m'
      case Some(c) => PutTrue(m', c)
  }

  /** The fact map phase one gives block `bi` of function `fi`: the
      non-variant facts its processed predecessors' stores offer, all true,
      then the predecessors' branch conditions put as true. */
  function ExpectedFacts(f: Func, fi: nat, bi: nat, stores: map<BlockRef, PreCond>): map<Value, bool>
    requires WellFormedFunc(f) && bi < |f.blocks|
  {
    var n := |f.blocks[bi].preds|;
    SeedFacts(f, bi, Asserted(OfferedFacts(ParentStores(f, fi, bi, stores, n), BlockRef(fi, bi))), n)
  }

  lemma ParentStoresOnlyTrue(f: Func, fi: nat, bi: nat, stores: map<BlockRef, PreCond>, n: nat)
    requires WellFormedFunc(f) && bi < |f.blocks| && n <= |f.blocks[bi].preds|
    requires forall r :: r in stores ==> OnlyTrue(stores[r])
    ensures forall i :: 0 <= i < |ParentStores(f, fi, bi, stores, n)| ==> OnlyTrue(ParentStores(f, fi, bi, stores, n)[i])
  {
    if n > 0 {
      ParentStoresOnlyTrue(f, fi, bi, stores, n - 1);
    }
  }

  /** The parent stores of a block read only the stores of earlier blocks of
      the same function. */
  lemma ParentStoresFrame(f: Func, fi: nat, bi: nat, s: map<BlockRef, PreCond>, s': map<BlockRef, PreCond>, n: nat)
    requires WellFormedFunc(f) && bi < |f.blocks| && n <= |f.blocks[bi].preds|
    requires forall p: nat :: p < bi ==> (BlockRef(fi, p) in s <==> BlockRef(fi, p) in s')
    requires forall p: nat :: p < bi && BlockRef(fi, p) in s ==> s'[BlockRef(fi, p)] == s[BlockRef(fi, p)]
    ensures ParentStores(f, fi, bi, s, n) == ParentStores(f, fi, bi, s', n)
  {
    if n > 0 {
      ParentStoresFrame(f, fi, bi, s, s', n - 1);
    }
  }

  /** The stores of the predecessors of block `bi` processed so far, in
      predecessor order, each an inherited store. */
  method Parents(f: Func, fi: nat, bi: nat, stores: map<BlockRef, PreCond>) returns (parents: seq<PreCond>)
    requires WellFormedFunc(f) && bi < |f.blocks|
    requires forall p :: 0 <= p < |f.blocks| ==> (BlockRef(fi, p) in stores <==> p < bi)
    ensures parents == ParentStores(f, fi, bi, stores, |f.blocks[bi].preds|)
    ensures forall i, k :: 0 <= i < |parents| && Offers(parents[i], k, BlockRef(fi, bi)) ==>
              Inherited(f, fi, bi, stores, k, parents[i].m[k])
  {
    var preds := f.blocks[bi].preds;
    parents := [];
    ghost var origin: seq<nat> := [];
    for j := 0 to |preds|
      invariant parents == ParentStores(f, fi, bi, stores, j)
      invariant |origin| == |parents|
      invariant forall i :: 0 <= i < |parents| ==>
                  origin[i] < j && preds[origin[i]] < bi && parents[i] == stores[BlockRef(fi, preds[origin[i]])]
    {
      var r := BlockRef(fi, preds[j]);
      assert preds[j] < |f.blocks|;
      if r in stores {
        parents, origin := parents + [stores[r]], origin + [j];
      }
    }
    forall i, k | 0 <= i < |parents| && Offers(parents[i], k, BlockRef(fi, bi))
      ensures Inherited(f, fi, bi, stores, k, parents[i].m[k])
    {
      var j' := origin[i];
      assert 0 <= j' < |preds| && preds[j'] < bi && parents[i] == stores[BlockRef(fi, preds[j'])];
    }
  }

  /** The provenance map after seeding from the first `j` predecessors: it
      names exactly their non-variant branch conditions, each with a
      predecessor it came from. */
  ghost predicate Seeded(f: Func, fi: nat, bi: nat, j: nat, from: map<Value, BlockRef>)
    requires WellFormedFunc(f) && bi < |f.blocks| && j <= |f.blocks[bi].preds|
  {
    var preds := f.blocks[bi].preds;
    && (forall k :: k in from <==> (exists j' :: 0 <= j' < j && IfInst(f.blocks[preds[j']]) == Some(k)) && !HasPhi(k))
    && (forall k :: k in from ==>
          exists j' :: 0 <= j' < j && IfInst(f.blocks[preds[j']]) == Some(k) && from[k] == BlockRef(fi, preds[j']))
  }

  /** The provenance map after also seeding from predecessor `j`. */
  function SeedFrom(f: Func, fi: nat, bi: nat, j: nat, from: map<Value, BlockRef>): map<Value, BlockRef>
    requires WellFormedFunc(f) && bi < |f.blocks| && j < |f.blocks[bi].preds|
  {
    var p := f.blocks[bi].preds[j];
    match IfInst(f.blocks[p])
    case None => from
    case Some(c) => if HasPhi(c) then from else from[c := BlockRef(fi, p)]
  }

  /** The provenance map after seeding from the first `n` predecessors of
      block `bi`, starting from the empty map of a merged store. */
  function SeedFroms(f: Func, fi: nat, bi: nat, n: nat): map<Value, BlockRef>
    requires WellFormedFunc(f) && bi < |f.blocks| && n <= |f.blocks[bi].preds|
  {
    if n == 0 then map[] else SeedFrom(f, fi, bi, n - 1, SeedFroms(f, fi, bi, n - 1))
  }

  /** Each put overwrites the provenance, so a non-variant condition is
      recorded with the LAST of the first `n` predecessors that branch on it. */
  lemma {:induction false} SeedFromsLast(f: Func, fi: nat, bi: nat, n: nat, j: nat, k: Value)
    requires WellFormedFunc(f) && bi < |f.blocks| && n <= |f.blocks[bi].preds| && j < n
    requires IfInst(f.blocks[f.blocks[bi].preds[j]]) == Some(k) && !HasPhi(k)
    requires forall j' :: j < j' < n ==> IfInst(f.blocks[f.blocks[bi].preds[j']]) != Some(k)
    ensures k in SeedFroms(f, fi, bi, n)
    ensures SeedFroms(f, fi, bi, n)[k] == BlockRef(fi, f.blocks[bi].preds[j])
  {
    if j < n - 1 {
      SeedFromsLast(f, fi, bi, n - 1, j, k);
      assert IfInst(f.blocks[f.blocks[bi].preds[n - 1]]) != Some(k);
    }
  }

  lemma SeededStep(f: Func, fi: nat, bi: nat, j: nat, from: map<Value, BlockRef>)
    requires WellFormedFunc(f) && bi < |f.blocks| && j < |f.blocks[bi].preds|
    requires Seeded(f, fi, bi, j, from)
    ensures Seeded(f, fi, bi, j + 1, SeedFrom(f, fi, bi, j, from))
  {
    SeededStepOrigins(f, fi, bi, j, from);
    SeededStepKeys(f, fi, bi, j, from);
  }

  /** After one more predecessor, every recorded condition still names a
      predecessor that branches on it. */
  lemma SeededStepOrigins(f: Func, fi: nat, bi: nat, j: nat, from: map<Value, BlockRef>)
    requires WellFormedFunc(f) && bi < |f.blocks| && j < |f.blocks[bi].preds|
    requires Seeded(f, fi, bi, j, from)
    ensures forall k :: k in SeedFrom(f, fi, bi, j, from) ==>
              exists j' :: 0 <= j' < j + 1 && IfInst(f.blocks[f.blocks[bi].preds[j']]) == Some(k)
                && SeedFrom(f, fi, bi, j, from)[k] == BlockRef(fi, f.blocks[bi].preds[j'])
  {
    var preds := f.blocks[bi].preds;
    var from' := SeedFrom(f, fi, bi, j, from);
    forall k | k in from'
      ensures exists j' :: 0 <= j' < j + 1 && IfInst(f.blocks[preds[j']]) == Some(k) && from'[k] == BlockRef(fi, preds[j'])
    {
      if IfInst(f.blocks[preds[j]]) == Some(k) && !HasPhi(k) {
        assert from'[k] == BlockRef(fi, preds[j]);
      } else {
        var j' :| 0 <= j' < j && IfInst(f.blocks[preds[j']]) == Some(k) && from[k] == BlockRef(fi, preds[j']);
      }
    }
  }

  /** After one more predecessor, the recorded conditions are exactly the
      non-variant conditions of the predecessors seen so far. */
  lemma SeededStepKeys(f: Func, fi: nat, bi: nat, j: nat, from: map<Value, BlockRef>)
    requires WellFormedFunc(f) && bi < |f.blocks| && j < |f.blocks[bi].preds|
    requires Seeded(f, fi, bi, j, from)
    ensures forall k :: k in SeedFrom(f, fi, bi, j, from) <==>
              (exists j' :: 0 <= j' < j + 1 && IfInst(f.blocks[f.blocks[bi].preds[j']]) == Some(k)) && !HasPhi(k)
  {
    var preds := f.blocks[bi].preds;
    var from' := SeedFrom(f, fi, bi, j, from);
    forall k | (exists j' :: 0 <= j' < j + 1 && IfInst(f.blocks[preds[j']]) == Some(k)) && !HasPhi(k)
      ensures k in from'
    {
      var j' :| 0 <= j' < j + 1 && IfInst(f.blocks[preds[j']]) == Some(k);
      if j' < j { assert k in from; }
    }
  }

  /** Every fact of `m` has an origin in block `bi`. */
  ghost predicate Originated(f: Func, fi: nat, bi: nat, stores: map<BlockRef, PreCond>, m: map<Value, bool>)
    requires WellFormedFunc(f) && bi < |f.blocks|
  {
    forall k :: k in m ==> FactOrigin(f, fi, bi, stores, k, m[k])
  }

  lemma OriginatedStep(f: Func, fi: nat, bi: nat, stores: map<BlockRef, PreCond>, m: map<Value, bool>, m': map<Value, bool>, c: Value)
    requires WellFormedFunc(f) && bi < |f.blocks|
    requires Originated(f, fi, bi, stores, m) && PredCondition(f, bi, c)
    requires forall k :: k in m' ==> (k == c && m'[k]) || (k in m && m'[k] == m[k])
    ensures Originated(f, fi, bi, stores, m')
  {
    forall k | k in m' ensures FactOrigin(f, fi, bi, stores, k, m'[k]) {
      if !(k in m && m'[k] == m[k]) {
        assert k == c && m'[k];
      }
    }
  }

  /** Puts the branch condition of every predecessor ending in `If` as true,
      with that predecessor as origin, into the merged store `pc0`. */
  method Seed(f: Func, fi: nat, bi: nat, stores: map<BlockRef, PreCond>, pc0: PreCond) returns (pc: PreCond)
    requires WellFormedFunc(f) && bi < |f.blocks|
    requires pc0.block == BlockRef(fi, bi) && pc0.from == map[]
    requires NoVariantFacts(pc0)
    requires forall k :: k in pc0.m ==> Inherited(f, fi, bi, stores, k, pc0.m[k])
    ensures pc.block == BlockRef(fi, bi)
    ensures NoVariantFacts(pc)
    ensures forall k :: k in pc.m ==> FactOrigin(f, fi, bi, stores, k, pc.m[k])
    ensures forall k :: k in pc.from <==> PredCondition(f, bi, k) && !HasPhi(k)
    ensures forall k :: k in pc.from ==>
              exists j :: 0 <= j < |f.blocks[bi].preds| && IfInst(f.blocks[f.blocks[bi].preds[j]]) == Some(k)
                && pc.from[k] == BlockRef(fi, f.blocks[bi].preds[j])
    ensures pc.from == SeedFroms(f, fi, bi, |f.blocks[bi].preds|)
    ensures OnlyTrue(pc0) ==> OnlyTrue(pc) && pc.m == SeedFacts(f, bi, pc0.m, |f.blocks[bi].preds|)
  {
    var preds := f.blocks[bi].preds;
    pc := pc0;
    for j := 0 to |preds|
      invariant OnlyTrue(pc0) ==> OnlyTrue(pc) && pc.m == SeedFacts(f, bi, pc0.m, j)
      invariant pc.block == BlockRef(fi, bi)
      invariant NoVariantFacts(pc)
      invariant Originated(f, fi, bi, stores, pc.m)
      invariant Seeded(f, fi, bi, j, pc.from)
      invariant pc.from == SeedFroms(f, fi, bi, j)
    {
      pc := SeedOne(f, fi, bi, stores, pc0, j, pc);
    }
    assert Seeded(f, fi, bi, |preds|, pc.from);
  }

  /** Seed's step for the `j`-th predecessor: its branch condition, if any,
      is put into the store as true. */
  method SeedOne(f: Func, fi: nat, bi: nat, stores: map<BlockRef, PreCond>, pc0: PreCond, j: nat, pc: PreCond)
    returns (pc': PreCond)
    requires WellFormedFunc(f) && bi < |f.blocks| && j < |f.blocks[bi].preds|
    requires OnlyTrue(pc0) ==> OnlyTrue(pc) && pc.m == SeedFacts(f, bi, pc0.m, j)
    requires pc.block == BlockRef(fi, bi)
    requires NoVariantFacts(pc)
    requires Originated(f, fi, bi, stores, pc.m)
    requires Seeded(f, fi, bi, j, pc.from)
    ensures OnlyTrue(pc0) ==> OnlyTrue(pc') && pc'.m == SeedFacts(f, bi, pc0.m, j + 1)
    ensures pc'.block == BlockRef(fi, bi)
    ensures NoVariantFacts(pc')
    ensures Originated(f, fi, bi, stores, pc'.m)
    ensures Seeded(f, fi, bi, j + 1, pc'.from)
    ensures pc'.from == SeedFrom(f, fi, bi, j, pc.from)
  {
    var p := f.blocks[bi].preds[j];
    var ifinst := IfInst(f.blocks[p]);
    SeededStep(f, fi, bi, j, pc.from);
    pc' := pc;
    if ifinst.Some? {
      var c := ifinst.value;
      assert PredCondition(f, bi, c);
      var conflicted;
      pc', conflicted := Put(pc, c, true, BlockRef(fi, p));
      OriginatedStep(f, fi, bi, stores, pc.m, pc'.m, c);
    }
  }

  /** Blocks processed before block `bi` of function `fi`. */
  predicate Done(funcs: seq<Func>, fi: nat, bi: nat, r: BlockRef) {
    ValidRef(funcs, r) && (r.fn < fi || (r.fn == fi && r.index < bi))
  }

  /** Every fact in the store of `r` has an origin. */
  ghost predicate FactsOriginate(funcs: seq<Func>, stores: map<BlockRef, PreCond>, r: BlockRef)
    requires WellFormed(funcs) && ValidRef(funcs, r) && r in stores
  {
    forall k :: k in stores[r].m ==> FactOrigin(funcs[r.fn], r.fn, r.index, stores, k, stores[r].m[k])
  }

  /** Adding stores for further blocks does not change where existing facts come from. */
  lemma OriginSurvivesGrowth(f: Func, fi: nat, bi: nat, s: map<BlockRef, PreCond>, s': map<BlockRef, PreCond>, k: Value, val: bool)
    requires WellFormedFunc(f) && bi < |f.blocks|
    requires forall r :: r in s ==> r in s' && s'[r] == s[r]
    requires FactOrigin(f, fi, bi, s, k, val)
    ensures FactOrigin(f, fi, bi, s', k, val)
  {
    if Inherited(f, fi, bi, s, k, val) {
      var preds := f.blocks[bi].preds;
      var j :| 0 <= j < |preds| && preds[j] < bi && BlockRef(fi, preds[j]) in s
        && Offers(s[BlockRef(fi, preds[j])], k, BlockRef(fi, bi)) && s[BlockRef(fi, preds[j])].m[k] == val;
      assert s'[BlockRef(fi, preds[j])] == s[BlockRef(fi, preds[j])];
    }
  }

  /** The state of phase one once the blocks before block `bi` of function
      `fi` are processed: exactly those blocks have stores, each store is for
      its block, holds only true, non-variant facts with an origin, its
      fact map is the one its processed predecessors determine, and its
      provenance map names each predecessor condition with the last
      predecessor that branches on it. */
  ghost predicate Built(funcs: seq<Func>, stores: map<BlockRef, PreCond>, fi: nat, bi: nat)
    requires WellFormed(funcs)
  {
    && (forall r :: r in stores <==> Done(funcs, fi, bi, r))
    && (forall r :: r in stores ==> stores[r].block == r && NoVariantFacts(stores[r]) && OnlyTrue(stores[r]))
    && (forall r :: r in stores ==> FactsOriginate(funcs, stores, r))
    && (forall r :: r in stores ==> stores[r].m == ExpectedFacts(funcs[r.fn], r.fn, r.index, stores))
    && (forall r :: r in stores ==> stores[r].from == SeedFroms(funcs[r.fn], r.fn, r.index, |funcs[r.fn].blocks[r.index].preds|))
  }

  /** Adding the store of the next block keeps the expected fact map of every
      block already built. */
  lemma ExpectedSurvivesGrowth(funcs: seq<Func>, stores: map<BlockRef, PreCond>, fi: nat, bi: nat, pc: PreCond, r: BlockRef)
    requires WellFormed(funcs) && fi < |funcs| && bi < |funcs[fi].blocks|
    requires forall r' :: r' in stores <==> Done(funcs, fi, bi, r')
    requires ValidRef(funcs, r) && (r == BlockRef(fi, bi) || r in stores)
    ensures ExpectedFacts(funcs[r.fn], r.fn, r.index, stores[BlockRef(fi, bi) := pc])
            == ExpectedFacts(funcs[r.fn], r.fn, r.index, stores)
  {
    var f := funcs[r.fn];
    ParentStoresFrame(f, r.fn, r.index, stores, stores[BlockRef(fi, bi) := pc], |f.blocks[r.index].preds|);
  }

  /** One step of phase one keeps `Built`. */
  lemma BuildStep(funcs: seq<Func>, stores: map<BlockRef, PreCond>, fi: nat, bi: nat, pc: PreCond)
    requires WellFormed(funcs) && fi < |funcs| && bi < |funcs[fi].blocks|
    requires Built(funcs, stores, fi, bi)
    requires pc.block == BlockRef(fi, bi) && NoVariantFacts(pc) && OnlyTrue(pc)
    requires forall k :: k in pc.m ==> FactOrigin(funcs[fi], fi, bi, stores, k, pc.m[k])
    requires pc.m == ExpectedFacts(funcs[fi], fi, bi, stores)
    requires pc.from == SeedFroms(funcs[fi], fi, bi, |funcs[fi].blocks[bi].preds|)
    ensures Built(funcs, stores[BlockRef(fi, bi) := pc], fi, bi + 1)
  {
    StoresSurviveStep(funcs, stores, fi, bi, pc, stores[BlockRef(fi, bi) := pc]);
    FromsSurviveStep(funcs, stores, fi, bi, pc, stores[BlockRef(fi, bi) := pc]);
    OriginsSurviveStep(funcs, stores, fi, bi, pc);
    ExpectedSurvivesStep(funcs, stores, fi, bi, pc);
  }

  lemma StoresSurviveStep(funcs: seq<Func>, stores: map<BlockRef, PreCond>, fi: nat, bi: nat, pc: PreCond, stores': map<BlockRef, PreCond>)
    requires WellFormed(funcs) && fi < |funcs| && bi < |funcs[fi].blocks|
    requires forall r :: r in stores <==> Done(funcs, fi, bi, r)
    requires forall r :: r in stores ==> stores[r].block == r && NoVariantFacts(stores[r]) && OnlyTrue(stores[r])
    requires pc.block == BlockRef(fi, bi) && NoVariantFacts(pc) && OnlyTrue(pc)
    requires stores' == stores[BlockRef(fi, bi) := pc]
    ensures forall r :: r in stores' <==> Done(funcs, fi, bi + 1, r)
    ensures forall r :: r in stores' ==> stores'[r].block == r && NoVariantFacts(stores'[r]) && OnlyTrue(stores'[r])
  {
  }

  lemma FromsSurviveStep(funcs: seq<Func>, stores: map<BlockRef, PreCond>, fi: nat, bi: nat, pc: PreCond, stores': map<BlockRef, PreCond>)
    requires WellFormed(funcs) && fi < |funcs| && bi < |funcs[fi].blocks|
    requires forall r :: r in stores ==>
               ValidRef(funcs, r) && stores[r].from == SeedFroms(funcs[r.fn], r.fn, r.index, |funcs[r.fn].blocks[r.index].preds|)
    requires pc.from == SeedFroms(funcs[fi], fi, bi, |funcs[fi].blocks[bi].preds|)
    requires stores' == stores[BlockRef(fi, bi) := pc]
    ensures forall r :: r in stores' ==>
              ValidRef(funcs, r) && stores'[r].from == SeedFroms(funcs[r.fn], r.fn, r.index, |funcs[r.fn].blocks[r.index].preds|)
  {
  }

  lemma OriginsSurviveStep(funcs: seq<Func>, stores: map<BlockRef, PreCond>, fi: nat, bi: nat, pc: PreCond)
    requires WellFormed(funcs) && fi < |funcs| && bi < |funcs[fi].blocks|
    requires forall r :: r in stores <==> Done(funcs, fi, bi, r)
    requires forall r :: r in stores ==> ValidRef(funcs, r) && FactsOriginate(funcs, stores, r)
    requires forall k :: k in pc.m ==> FactOrigin(funcs[fi], fi, bi, stores, k, pc.m[k])
    ensures forall r :: r in stores[BlockRef(fi, bi) := pc] ==>
              ValidRef(funcs, r) && FactsOriginate(funcs, stores[BlockRef(fi, bi) := pc], r)
  {
    var stores' := stores[BlockRef(fi, bi) := pc];
    forall r | r in stores'
      ensures ValidRef(funcs, r) && FactsOriginate(funcs, stores', r)
    {
      forall k | k in stores'[r].m
        ensures FactOrigin(funcs[r.fn], r.fn, r.index, stores', k, stores'[r].m[k])
      {
        OriginSurvivesGrowth(funcs[r.fn], r.fn, r.index, stores, stores', k, stores'[r].m[k]);
      }
    }
  }

  lemma ExpectedSurvivesStep(funcs: seq<Func>, stores: map<BlockRef, PreCond>, fi: nat, bi: nat, pc: PreCond)
    requires WellFormed(funcs) && fi < |funcs| && bi < |funcs[fi].blocks|
    requires forall r :: r in stores <==> Done(funcs, fi, bi, r)
    requires forall r :: r in stores ==>
               ValidRef(funcs, r) && stores[r].m == ExpectedFacts(funcs[r.fn], r.fn, r.index, stores)
    requires pc.m == ExpectedFacts(funcs[fi], fi, bi, stores)
    ensures forall r :: r in stores[BlockRef(fi, bi) := pc] ==>
              ValidRef(funcs, r)
              && stores[BlockRef(fi, bi) := pc][r].m == ExpectedFacts(funcs[r.fn], r.fn, r.index, stores[BlockRef(fi, bi) := pc])
  {
    var stores' := stores[BlockRef(fi, bi) := pc];
    forall r | r in stores'
      ensures ValidRef(funcs, r) && stores'[r].m == ExpectedFacts(funcs[r.fn], r.fn, r.index, stores')
    {
      ExpectedSurvivesGrowth(funcs, stores, fi, bi, pc, r);
    }
  }

  /** Phase one: one store per block of every function, processed in order. */
  method BuildStores(funcs: seq<Func>) returns (stores: map<BlockRef, PreCond>)
    requires WellFormed(funcs)
    ensures forall r :: r in stores <==> ValidRef(funcs, r)
    ensures forall r :: r in stores ==> stores[r].block == r && NoVariantFacts(stores[r]) && OnlyTrue(stores[r])
    ensures forall r :: r in stores ==> FactsOriginate(funcs, stores, r)
    ensures forall r :: r in stores ==>
              ValidRef(funcs, r) && stores[r].m == ExpectedFacts(funcs[r.fn], r.fn, r.index, stores)
    ensures forall r :: r in stores ==>
              ValidRef(funcs, r) && stores[r].from == SeedFroms(funcs[r.fn], r.fn, r.index, |funcs[r.fn].blocks[r.index].preds|)
  {
    stores := map[];
    for fi := 0 to |funcs|
      invariant Built(funcs, stores, fi, 0)
    {
      var f := funcs[fi];
      for bi := 0 to |f.blocks|
        invariant Built(funcs, stores, fi, bi)
      {
        var pc := BuildBlock(f, fi, bi, stores);
        BuildStep(funcs, stores, fi, bi, pc);
        stores := stores[BlockRef(fi, bi) := pc];
      }
      assert forall r :: Done(funcs, fi, |f.blocks|, r) <==> Done(funcs, fi + 1, 0, r);
    }
    assert forall r :: Done(funcs, |funcs|, 0, r) <==> ValidRef(funcs, r);
  }

  /** A report: the condition ending `block` is always `val`. */
  datatype Report = Report(block: BlockRef, val: bool)

  /** The verdict on one block: its branch condition is tried against the
      store as false first, then as true; the first hit wins. In a store
      whose facts are all true, `false` is the verdict exactly when the
      condition is itself a key. */
  function Verdict(pc: PreCond, b: Block): (r: Option<bool>)
    ensures r.Some? ==> IfInst(b).Some? && Store.Lookup(pc, IfInst(b).value, r.value)
    ensures OnlyTrue(pc) ==> (r == Some(false) <==> IfInst(b).Some? && IfInst(b).value in pc.m)
  {
    match IfInst(b)
    case None => None
    case Some(c) =>
      if Store.Lookup(pc, c, false) then Some(false)
      else if Store.Lookup(pc, c, true) then Some(true)
      else None
  }

  /** The reports a block with verdict `v` gives: none, or one. */
  function ReportOf(r: BlockRef, v: Option<bool>): seq<Report> {
    match v
    case None => []
    case Some(val) => [Report(r, val)]
  }

  /** The verdict of every block of `funcs` under `stores`; a reference out
      of range or without a store has none. */
  function Verdicts(funcs: seq<Func>, stores: map<BlockRef, PreCond>): BlockRef -> Option<bool> {
    r => if ValidRef(funcs, r) && r in stores then Verdict(stores[r], BlockAt(funcs, r)) else None
  }

  /** The reports of the first `n` blocks of function `fi` under the
      verdicts `verdict`, in block order. */
  function BlockReports(fi: nat, verdict: BlockRef -> Option<bool>, n: nat): seq<Report> {
    if n == 0 then []
    else BlockReports(fi, verdict, n - 1) + ReportOf(BlockRef(fi, n - 1), verdict(BlockRef(fi, n - 1)))
  }

  /** The reports of the first `n` functions under the verdicts `verdict`,
      function by function. */
  function FuncReports(funcs: seq<Func>, verdict: BlockRef -> Option<bool>, n: nat): seq<Report>
    requires n <= |funcs|
  {
    if n == 0 then []
    else FuncReports(funcs, verdict, n - 1) + BlockReports(n - 1, verdict, |funcs[n - 1].blocks|)
  }

  /** The reference report list of phase two: every block's verdict, if it
      has one, function by function and block by block. */
  function AllReports(funcs: seq<Func>, stores: map<BlockRef, PreCond>): seq<Report> {
    FuncReports(funcs, Verdicts(funcs, stores), |funcs|)
  }

  /** Phase two: at most one report per block that ends in an `If`, in block
      order; `false` whenever the store settles the condition as false,
      otherwise `true` when it settles it as true. */
  method CheckStores(funcs: seq<Func>, stores: map<BlockRef, PreCond>) returns (reports: seq<Report>)
    requires forall r :: ValidRef(funcs, r) ==> r in stores
    ensures reports == AllReports(funcs, stores)
    ensures forall i :: 0 <= i < |reports| ==>
              && ValidRef(funcs, reports[i].block)
              && IfInst(BlockAt(funcs, reports[i].block)).Some?
              && Store.Lookup(stores[reports[i].block], IfInst(BlockAt(funcs, reports[i].block)).value, reports[i].val)
              && (reports[i].val ==> !Store.Lookup(stores[reports[i].block], IfInst(BlockAt(funcs, reports[i].block)).value, false))
    ensures forall r :: ValidRef(funcs, r) && IfInst(BlockAt(funcs, r)).Some?
              && (Store.Lookup(stores[r], IfInst(BlockAt(funcs, r)).value, false) || Store.Lookup(stores[r], IfInst(BlockAt(funcs, r)).value, true))
              ==> exists i :: 0 <= i < |reports| && reports[i].block == r
    ensures forall i, j :: 0 <= i < j < |reports| ==> Before(reports[i].block, reports[j].block)
  {
    reports := CollectReports(funcs, stores);
    ReportsMeaning(funcs, stores, reports);
  }

  /** The loop of phase two: every block's verdict, in processing order. */
  method CollectReports(funcs: seq<Func>, stores: map<BlockRef, PreCond>) returns (reports: seq<Report>)
    requires forall r :: ValidRef(funcs, r) ==> r in stores
    ensures reports == AllReports(funcs, stores)
  {
    reports := [];
    for fi := 0 to |funcs|
      invariant reports == FuncReports(funcs, Verdicts(funcs, stores), fi)
    {
      var blockReports := CollectBlockReports(funcs, stores, fi);
      reports := reports + blockReports;
    }
  }

  /** The reports of function `fi`, one block after the other. */
  method CollectBlockReports(funcs: seq<Func>, stores: map<BlockRef, PreCond>, fi: nat) returns (reports: seq<Report>)
    requires forall r :: ValidRef(funcs, r) ==> r in stores
    requires fi < |funcs|
    ensures reports == BlockReports(fi, Verdicts(funcs, stores), |funcs[fi].blocks|)
  {
    reports := [];
    for bi := 0 to |funcs[fi].blocks|
      invariant reports == BlockReports(fi, Verdicts(funcs, stores), bi)
    {
      var r := BlockRef(fi, bi);
      assert ValidRef(funcs, r);
      assert Verdicts(funcs, stores)(r) == Verdict(stores[r], funcs[fi].blocks[bi]);
      reports := reports + ReportOf(r, Verdict(stores[r], funcs[fi].blocks[bi]));
    }
  }

  /** Every report of the first `n` blocks of function `fi` is for one of
      those blocks and carries its verdict. */
  lemma {:induction false} BlockReportsSound(fi: nat, verdict: BlockRef -> Option<bool>, n: nat, reports: seq<Report>)
    requires reports == BlockReports(fi, verdict, n)
    ensures forall rep :: rep in reports ==>
              rep.block.fn == fi && rep.block.index < n && verdict(rep.block) == Some(rep.val)
  {
    if n > 0 {
      var prev := BlockReports(fi, verdict, n - 1);
      BlockReportsSound(fi, verdict, n - 1, prev);
      var r := BlockRef(fi, n - 1);
      var last := ReportOf(r, verdict(r));
      assert reports == prev + last;
      forall rep | rep in reports
        ensures rep.block.fn == fi && rep.block.index < n && verdict(rep.block) == Some(rep.val)
      {
        if rep !in prev {
          assert rep in last && rep.block == r;
        }
      }
    }
  }

  /** Every one of the first `n` blocks of function `fi` that has a verdict
      is reported with it. */
  lemma {:induction false} BlockReportsComplete(fi: nat, verdict: BlockRef -> Option<bool>, n: nat, reports: seq<Report>)
    requires reports == BlockReports(fi, verdict, n)
    ensures forall b :: 0 <= b < n && verdict(BlockRef(fi, b)).Some? ==>
              Report(BlockRef(fi, b), verdict(BlockRef(fi, b)).value) in reports
  {
    if n > 0 {
      var prev := BlockReports(fi, verdict, n - 1);
      BlockReportsComplete(fi, verdict, n - 1, prev);
      var r := BlockRef(fi, n - 1);
      assert reports == prev + ReportOf(r, verdict(r));
    }
  }

  /** The reports of function `fi` are for blocks below `n`, in strictly
      increasing block order. */
  lemma {:induction false} BlockReportsOrdered(fi: nat, verdict: BlockRef -> Option<bool>, n: nat, reports: seq<Report>)
    requires reports == BlockReports(fi, verdict, n)
    ensures forall i :: 0 <= i < |reports| ==> reports[i].block.fn == fi && reports[i].block.index < n
    ensures forall i, j :: 0 <= i < j < |reports| ==> reports[i].block.index < reports[j].block.index
  {
    if n > 0 {
      var prev := BlockReports(fi, verdict, n - 1);
      BlockReportsOrdered(fi, verdict, n - 1, prev);
      var r := BlockRef(fi, n - 1);
      var last := ReportOf(r, verdict(r));
      assert reports == prev + last;
      assert forall i :: 0 <= i < |last| ==> last[i].block == r;
      forall i | 0 <= i < |reports| ensures reports[i].block.fn == fi && reports[i].block.index < n {
        if i < |prev| { assert reports[i] == prev[i]; } else { assert reports[i] == last[i - |prev|]; }
      }
      forall i, j | 0 <= i < j < |reports| ensures reports[i].block.index < reports[j].block.index {
        if j < |prev| {
          assert reports[i] == prev[i] && reports[j] == prev[j];
        } else {
          assert reports[i] == prev[i] && reports[j] == last[j - |prev|];
        }
      }
    }
  }

  /** Every report of the first `n` functions is for one of their blocks and
      carries its verdict. */
  lemma {:induction false} FuncReportsSound(funcs: seq<Func>, verdict: BlockRef -> Option<bool>, n: nat, reports: seq<Report>)
    requires n <= |funcs|
    requires reports == FuncReports(funcs, verdict, n)
    ensures forall rep :: rep in reports ==> Done(funcs, n, 0, rep.block) && verdict(rep.block) == Some(rep.val)
  {
    if n > 0 {
      var prev := FuncReports(funcs, verdict, n - 1);
      var last := BlockReports(n - 1, verdict, |funcs[n - 1].blocks|);
      FuncReportsSound(funcs, verdict, n - 1, prev);
      BlockReportsSound(n - 1, verdict, |funcs[n - 1].blocks|, last);
      assert reports == prev + last;
      forall rep | rep in reports
        ensures Done(funcs, n, 0, rep.block) && verdict(rep.block) == Some(rep.val)
      {
        if rep !in prev {
          assert rep in last;
        }
      }
    }
  }

  /** Every block of the first `n` functions that has a verdict is reported with it. */
  lemma {:induction false} FuncReportsComplete(funcs: seq<Func>, verdict: BlockRef -> Option<bool>, n: nat, reports: seq<Report>)
    requires n <= |funcs|
    requires reports == FuncReports(funcs, verdict, n)
    ensures forall r :: Done(funcs, n, 0, r) && verdict(r).Some? ==> Report(r, verdict(r).value) in reports
  {
    if n > 0 {
      var fi := n - 1;
      var prev := FuncReports(funcs, verdict, fi);
      var last := BlockReports(fi, verdict, |funcs[fi].blocks|);
      FuncReportsComplete(funcs, verdict, fi, prev);
      BlockReportsComplete(fi, verdict, |funcs[fi].blocks|, last);
      assert reports == prev + last;
      forall r | Done(funcs, n, 0, r) && verdict(r).Some?
        ensures Report(r, verdict(r).value) in reports
      {
        if r.fn == fi {
          assert r == BlockRef(fi, r.index);
        } else {
          assert Done(funcs, fi, 0, r);
        }
      }
    }
  }

  /** Appending the reports of function `fn`, in block order, to reports
      of earlier functions, in processing order, keeps processing order. */
  lemma OrderedAppend(prev: seq<Report>, last: seq<Report>, all: seq<Report>, fn: nat)
    requires forall i :: 0 <= i < |prev| ==> prev[i].block.fn < fn
    requires forall i, j :: 0 <= i < j < |prev| ==> Before(prev[i].block, prev[j].block)
    requires forall i :: 0 <= i < |last| ==> last[i].block.fn == fn
    requires forall i, j :: 0 <= i < j < |last| ==> last[i].block.index < last[j].block.index
    requires all == prev + last
    ensures forall i :: 0 <= i < |all| ==> all[i].block.fn <= fn
    ensures forall i, j :: 0 <= i < j < |all| ==> Before(all[i].block, all[j].block)
  {
    forall i | 0 <= i < |all| ensures all[i].block.fn <= fn {
      if i < |prev| { assert all[i] == prev[i]; } else { assert all[i] == last[i - |prev|]; }
    }
    forall i, j | 0 <= i < j < |all| ensures Before(all[i].block, all[j].block) {
      if j < |prev| {
        assert all[i] == prev[i] && all[j] == prev[j];
      } else if i >= |prev| {
        assert all[i] == last[i - |prev|] && all[j] == last[j - |prev|];
      } else {
        assert all[i] == prev[i] && all[j] == last[j - |prev|];
      }
    }
  }

  /** The reports of the first `n` functions are in processing order, each
      for a block of one of those functions. */
  lemma {:induction false} FuncReportsOrdered(funcs: seq<Func>, verdict: BlockRef -> Option<bool>, n: nat, reports: seq<Report>)
    requires n <= |funcs|
    requires reports == FuncReports(funcs, verdict, n)
    ensures forall i :: 0 <= i < |reports| ==> reports[i].block.fn < n
    ensures forall i, j :: 0 <= i < j < |reports| ==> Before(reports[i].block, reports[j].block)
  {
    if n > 0 {
      var prev := FuncReports(funcs, verdict, n - 1);
      var last := BlockReports(n - 1, verdict, |funcs[n - 1].blocks|);
      FuncReportsOrdered(funcs, verdict, n - 1, prev);
      BlockReportsOrdered(n - 1, verdict, |funcs[n - 1].blocks|, last);
      assert reports == prev + last;
      OrderedAppend(prev, last, reports, n - 1);
    }
  }

  /** The reference report list, read back in terms of the stores: each
      report is for a block ending in `If` whose store settles its condition
      with the reported value, `true` only when `false` is not settled;
      every settled block is reported; the reports are in processing order. */
  lemma ReportsMeaning(funcs: seq<Func>, stores: map<BlockRef, PreCond>, reports: seq<Report>)
    requires forall r :: ValidRef(funcs, r) ==> r in stores
    requires reports == AllReports(funcs, stores)
    ensures forall i :: 0 <= i < |reports| ==>
              && ValidRef(funcs, reports[i].block)
              && IfInst(BlockAt(funcs, reports[i].block)).Some?
              && Store.Lookup(stores[reports[i].block], IfInst(BlockAt(funcs, reports[i].block)).value, reports[i].val)
              && (reports[i].val ==> !Store.Lookup(stores[reports[i].block], IfInst(BlockAt(funcs, reports[i].block)).value, false))
    ensures forall r :: ValidRef(funcs, r) && IfInst(BlockAt(funcs, r)).Some?
              && (Store.Lookup(stores[r], IfInst(BlockAt(funcs, r)).value, false) || Store.Lookup(stores[r], IfInst(BlockAt(funcs, r)).value, true))
              ==> exists i :: 0 <= i < |reports| && reports[i].block == r
    ensures forall i, j :: 0 <= i < j < |reports| ==> Before(reports[i].block, reports[j].block)
  {
    var verdict := Verdicts(funcs, stores);
    FuncReportsSound(funcs, verdict, |funcs|, reports);
    FuncReportsComplete(funcs, verdict, |funcs|, reports);
    FuncReportsOrdered(funcs, verdict, |funcs|, reports);
    assert forall r :: Done(funcs, |funcs|, 0, r) <==> ValidRef(funcs, r);
    forall i | 0 <= i < |reports|
      ensures Verdict(stores[reports[i].block], BlockAt(funcs, reports[i].block)) == Some(reports[i].val)
    {
      assert reports[i] in reports;
    }
    forall r | ValidRef(funcs, r) && Verdict(stores[r], BlockAt(funcs, r)).Some?
      ensures exists i :: 0 <= i < |reports| && reports[i].block == r
    {
      assert verdict(r) == Verdict(stores[r], BlockAt(funcs, r));
      var i :| 0 <= i < |reports| && reports[i] == Report(r, verdict(r).value);
    }
  }

  /** The analyzer over all source functions: build every block's store,
      then report each block whose branch condition the store settles. */
  method Run(funcs: seq<Func>) returns (stores: map<BlockRef, PreCond>, reports: seq<Report>)
    requires WellFormed(funcs)
    ensures forall r :: r in stores <==> ValidRef(funcs, r)
    ensures forall r :: r in stores ==> stores[r].block == r && NoVariantFacts(stores[r]) && OnlyTrue(stores[r])
    ensures forall r :: r in stores ==> FactsOriginate(funcs, stores, r)
    ensures forall r :: r in stores ==>
              ValidRef(funcs, r) && stores[r].m == ExpectedFacts(funcs[r.fn], r.fn, r.index, stores)
    ensures forall r :: r in stores ==>
              ValidRef(funcs, r) && stores[r].from == SeedFroms(funcs[r.fn], r.fn, r.index, |funcs[r.fn].blocks[r.index].preds|)
    ensures reports == AllReports(funcs, stores)
    ensures forall i :: 0 <= i < |reports| && !reports[i].val ==>
              ValidRef(funcs, reports[i].block)
              && IfInst(BlockAt(funcs, reports[i].block)).Some?
              && IfInst(BlockAt(funcs, reports[i].block)).value in stores[reports[i].block].m
    ensures forall i :: 0 <= i < |reports| ==>
              && ValidRef(funcs, reports[i].block)
              && IfInst(BlockAt(funcs, reports[i].block)).Some?
              && Store.Lookup(stores[reports[i].block], IfInst(BlockAt(funcs, reports[i].block)).value, reports[i].val)
              && (reports[i].val ==> !Store.Lookup(stores[reports[i].block], IfInst(BlockAt(funcs, reports[i].block)).value, false))
    ensures forall r :: ValidRef(funcs, r) && IfInst(BlockAt(funcs, r)).Some?
              && (Store.Lookup(stores[r], IfInst(BlockAt(funcs, r)).value, false) || Store.Lookup(stores[r], IfInst(BlockAt(funcs, r)).value, true))
              ==> exists i :: 0 <= i < |reports| && reports[i].block == r
    ensures forall i, j :: 0 <= i < j < |reports| ==> Before(reports[i].block, reports[j].block)
  {
    stores := BuildStores(funcs);
    reports := CheckStores(funcs, stores);
  }
}
