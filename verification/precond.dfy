/** The per-block precondition store: facts known on entry to a block,
    facts found to conflict, and for each fact put by a predecessor's
    branch the predecessor it came from. */
module Store {
  import opened Ssa
  import opened Conditions
  import opened PathVariance

  datatype PreCond = PreCond(
    block: BlockRef,
    m: map<Value, bool>,
    conflict: map<Value, bool>,
    from: map<Value, BlockRef>)

  /** No fact about a path-variant value sits in the main mapping. */
  predicate NoVariantFacts(pc: PreCond) {
    forall k :: k in pc.m ==> !HasPhi(k)
  }

  /** Every fact and every conflict of the store is asserted true. */
  predicate OnlyTrue(pc: PreCond) {
    && (forall k :: k in pc.m ==> pc.m[k])
    && (forall k :: k in pc.conflict ==> pc.conflict[k])
  }

  /** Whether the store settles `(v, val)`: `v` is itself a key, whatever its
      value, or some stored fact matches the query. When every fact is true,
      `false` is settled only by `v` being a key itself. */
  predicate Lookup(pc: PreCond, v: Value, val: bool): (r: bool)
    ensures v in pc.m ==> r
    ensures (forall k :: k in pc.m ==> pc.m[k]) && !val ==> (r <==> v in pc.m)
  {
    v in pc.m || exists c :: c in pc.m && Equal(Cond(v, val), Cond(c, pc.m[c]))
  }

  /** Whether `(v, val)` matches the opposite of some recorded conflict. When
      every conflict is true, putting `true` never conflicts. */
  predicate Conflicted(pc: PreCond, v: Value, val: bool): (r: bool)
    ensures (forall k :: k in pc.conflict ==> pc.conflict[k]) && val ==> !r
  {
    exists c :: c in pc.conflict && Equal(Cond(v, val), Cond(c, !pc.conflict[c]))
  }

  /** Every fact of `m0` is still a fact of `m`, with the same value. */
  predicate KeepsFacts(m0: map<Value, bool>, m: map<Value, bool>) {
    forall k :: k in m0 ==> k in m && m[k] == m0[k]
  }

  /** Every conflict is justified by the fact map: its opposite is settled. */
  predicate Justified(pc: PreCond) {
    forall k :: k in pc.conflict ==> Lookup(pc, k, !pc.conflict[k])
  }

  /** The fact map after putting `v` as true into a store whose facts and
      conflicts are all true: a variant value changes nothing, a key already
      present leaves the map, any other value becomes a true fact. */
  function PutTrue(m: map<Value, bool>, v: Value): map<Value, bool> {
    if HasPhi(v) then m else if v in m then m - {v} else m[v := true]
  }

  /** The key that settles `(v, val)`: `v` itself when it is a key, otherwise
      a matching key met first in an unspecified iteration order, or None. */
  method LookupKey(pc: PreCond, v: Value, val: bool) returns (r: Option<Value>)
    ensures v in pc.m ==> r == Some(v)
    ensures r.Some? ==> r.value in pc.m && (r.value == v || Equal(Cond(v, val), Cond(r.value, pc.m[r.value])))
    ensures r.Some? <==> Lookup(pc, v, val)
  {
    if v in pc.m {
      return Some(v);
    }
    var keys := pc.m.Keys;
    while keys != {}
      invariant keys <= pc.m.Keys
      invariant forall c :: c in pc.m && c !in keys ==> !Equal(Cond(v, val), Cond(c, pc.m[c]))
      decreases keys
    {
      var c :| c in keys;
      if Equal(Cond(v, val), Cond(c, pc.m[c])) {
        return Some(c);
      }
      keys := keys - {c};
    }
    return None;
  }

  /** Records that `v` has truth value `val`, coming from block `from`.
      Path-variant values are ignored. A fact that matches the opposite of a
      recorded conflict, or whose opposite the store already settles, is
      recorded as a conflict (and in the second case the settling key leaves
      the main mapping); otherwise it becomes a fact. Reports whether the
      insertion conflicted. */
  method Put(pc: PreCond, v: Value, val: bool, from: BlockRef) returns (r: PreCond, conflicted: bool)
    ensures r.block == pc.block
    ensures conflicted <==> !HasPhi(v) && (Conflicted(pc, v, val) || Lookup(pc, v, !val))
    ensures HasPhi(v) ==> r == pc
    ensures !HasPhi(v) ==> r.from == pc.from[v := from]
    ensures !HasPhi(v) && conflicted ==> r.conflict == pc.conflict[v := val]
    ensures !HasPhi(v) && Conflicted(pc, v, val) ==> r.m == pc.m
    ensures !HasPhi(v) && !Conflicted(pc, v, val) && v in pc.m ==> r.m == pc.m - {v}
    ensures !HasPhi(v) && !Conflicted(pc, v, val) && Lookup(pc, v, !val) ==>
              exists c :: c in pc.m && (c == v || Equal(Cond(v, !val), Cond(c, pc.m[c]))) && r.m == pc.m - {c}
    ensures !conflicted ==> r.conflict == pc.conflict
    ensures !HasPhi(v) && !conflicted ==> r.m == pc.m[v := val]
    ensures forall k :: k in r.m ==> (k == v && r.m[k] == val) || (k in pc.m && r.m[k] == pc.m[k])
    ensures val && OnlyTrue(pc) ==>
              && OnlyTrue(r)
              && r.m == PutTrue(pc.m, v)
              && (conflicted <==> !HasPhi(v) && v in pc.m)
  {
    if HasPhi(v) {
      return pc, false;
    }
    if Conflicted(pc, v, val) {
      return pc.(conflict := pc.conflict[v := val], from := pc.from[v := from]), true;
    }
    var c := LookupKey(pc, v, !val);
    if c.Some? {
      return pc.(m := pc.m - {c.value}, conflict := pc.conflict[v := val], from := pc.from[v := from]), true;
    }
    return pc.(m := pc.m[v := val], from := pc.from[v := from]), false;
  }

  /** Parent `p` offers fact `k` to block `b`: `k` is a key of `p` that was
      not put there by a branch of `b` itself. */
  predicate Offers(p: PreCond, k: Value, b: BlockRef) {
    k in p.m && !(k in p.from && p.from[k] == b)
  }

  /** Some parent among the first `n` offers `(k, val)` to `b`. */
  ghost predicate OfferedBy(parents: seq<PreCond>, n: int, k: Value, val: bool, b: BlockRef)
    requires n <= |parents|
  {
    exists i :: 0 <= i < n && Offers(parents[i], k, b) && parents[i].m[k] == val
  }

  /** Every entry of `pc`, fact or conflict, is offered by one of the first `n` parents. */
  ghost predicate Sourced(parents: seq<PreCond>, n: int, b: BlockRef, pc: PreCond)
    requires n <= |parents|
  {
    && (forall k :: k in pc.m ==> OfferedBy(parents, n, k, pc.m[k], b))
    && (forall k :: k in pc.conflict ==> OfferedBy(parents, n, k, pc.conflict[k], b))
  }

  /** Parent `i`'s fact `k` has been merged: an earlier parent, or key `k` of
      parent `n` among those already visited. */
  ghost predicate Visited(n: int, done: set<Value>, i: int, k: Value) {
    0 <= i < n || (i == n && k in done)
  }

  /** Every merged offer ended up as a fact or a conflict, unless path-variant. */
  ghost predicate Covered(parents: seq<PreCond>, n: int, done: set<Value>, b: BlockRef, pc: PreCond) {
    forall i, k :: 0 <= i < |parents| && Visited(n, done, i, k) && Offers(parents[i], k, b) ==>
      k in pc.m || k in pc.conflict || HasPhi(k)
  }

  /** A non-variant key offered by two merged parents is a conflict. */
  ghost predicate Repeated(parents: seq<PreCond>, n: int, done: set<Value>, b: BlockRef, pc: PreCond) {
    forall i, j, k ::
      (0 <= i < j < |parents| && Visited(n, done, j, k) && Offers(parents[i], k, b) &&
       Offers(parents[j], k, b) && !HasPhi(k)) ==> k in pc.conflict
  }

  /** The store for block `b` on entry, merged from the stores of its already
      processed predecessors, in order, each one's facts in an unspecified
      order. A fact put there by a branch of `b` itself is skipped; a fact whose
      opposite the new store already settles (in particular one whose key is
      already a fact) is recorded as a conflict; a path-variant fact is
      dropped; any other fact is copied. */
  method NewPreCond(parents: seq<PreCond>, b: BlockRef) returns (pc: PreCond)
    ensures pc.block == b && pc.from == map[]
    ensures NoVariantFacts(pc)
    ensures forall k :: k in pc.m ==> OfferedBy(parents, |parents|, k, pc.m[k], b)
    ensures forall k :: k in pc.conflict ==> OfferedBy(parents, |parents|, k, pc.conflict[k], b)
    ensures forall i, k :: 0 <= i < |parents| && Offers(parents[i], k, b) ==>
              k in pc.m || k in pc.conflict || HasPhi(k)
    ensures forall i, j, k :: (0 <= i < j < |parents| && Offers(parents[i], k, b) && Offers(parents[j], k, b)
              && !HasPhi(k)) ==> k in pc.conflict
    ensures Justified(pc)
    ensures (forall i :: 0 <= i < |parents| ==> OnlyTrue(parents[i])) ==>
              OnlyTrue(pc) && pc.m == Asserted(OfferedFacts(parents, b))
  {
    pc := PreCond(b, map[], map[], map[]);
    for n := 0 to |parents|
      invariant pc.block == b && pc.from == map[]
      invariant NoVariantFacts(pc)
      invariant Justified(pc)
      invariant Sourced(parents, n, b, pc)
      invariant Covered(parents, n, {}, b, pc)
      invariant Repeated(parents, n, {}, b, pc)
    {
      pc := MergeParent(parents, n, b, pc);
    }
    // Every parent index is below |parents|, so all of them count as visited.
    assert forall i, k :: 0 <= i < |parents| ==> Visited(|parents|, {}, i, k);
    if forall i :: 0 <= i < |parents| ==> OnlyTrue(parents[i]) {
      MergedFacts(parents, b, pc);
    }
  }

  /** The keys offered to `b` by some parent, other than path-variant ones. */
  function OfferedFacts(parents: seq<PreCond>, b: BlockRef): set<Value> {
    set i, k | 0 <= i < |parents| && k in parents[i].m && Offers(parents[i], k, b) && !HasPhi(k) :: k
  }

  /** Each value of `s`, asserted true. */
  function Asserted(s: set<Value>): map<Value, bool> {
    map k | k in s :: true
  }

  /** With parents whose facts are all true, the merged fact map holds
      exactly the non-variant offers, as true facts, and every conflict is
      true as well. */
  lemma MergedFacts(parents: seq<PreCond>, b: BlockRef, pc: PreCond)
    requires NoVariantFacts(pc) && Justified(pc)
    requires forall k :: k in pc.m ==> OfferedBy(parents, |parents|, k, pc.m[k], b)
    requires forall k :: k in pc.conflict ==> OfferedBy(parents, |parents|, k, pc.conflict[k], b)
    requires forall i, k :: 0 <= i < |parents| && Offers(parents[i], k, b) ==>
               k in pc.m || k in pc.conflict || HasPhi(k)
    requires forall i :: 0 <= i < |parents| ==> OnlyTrue(parents[i])
    ensures OnlyTrue(pc) && pc.m == Asserted(OfferedFacts(parents, b))
  {
    MergedFactsOffered(parents, b, pc);
    forall k | k in OfferedFacts(parents, b) ensures k in pc.m {
      var i :| 0 <= i < |parents| && k in parents[i].m && Offers(parents[i], k, b) && !HasPhi(k);
    }
  }

  /** With all-true parents, every merged fact and conflict is true, and
      every fact is a non-variant offer. */
  lemma MergedFactsOffered(parents: seq<PreCond>, b: BlockRef, pc: PreCond)
    requires NoVariantFacts(pc)
    requires forall k :: k in pc.m ==> OfferedBy(parents, |parents|, k, pc.m[k], b)
    requires forall k :: k in pc.conflict ==> OfferedBy(parents, |parents|, k, pc.conflict[k], b)
    requires forall i :: 0 <= i < |parents| ==> OnlyTrue(parents[i])
    ensures OnlyTrue(pc)
    ensures forall k :: k in pc.m ==> k in OfferedFacts(parents, b)
  {
    forall k | k in pc.m ensures pc.m[k] && k in OfferedFacts(parents, b) {
      var i :| 0 <= i < |parents| && Offers(parents[i], k, b) && parents[i].m[k] == pc.m[k];
    }
    forall k | k in pc.conflict ensures pc.conflict[k] {
      var i :| 0 <= i < |parents| && Offers(parents[i], k, b) && parents[i].m[k] == pc.conflict[k];
    }
  }

  /** One round of NewPreCond: merge the facts of `parents[n]` into `pc0`. */
  method MergeParent(parents: seq<PreCond>, n: nat, b: BlockRef, pc0: PreCond) returns (pc: PreCond)
    requires n < |parents|
    requires pc0.block == b && pc0.from == map[]
    requires NoVariantFacts(pc0)
    requires Sourced(parents, n, b, pc0)
    requires Covered(parents, n, {}, b, pc0)
    requires Repeated(parents, n, {}, b, pc0)
    requires Justified(pc0)
    ensures pc.block == b && pc.from == map[]
    ensures NoVariantFacts(pc)
    ensures Justified(pc)
    ensures Sourced(parents, n + 1, b, pc)
    ensures Covered(parents, n + 1, {}, b, pc)
    ensures Repeated(parents, n + 1, {}, b, pc)
    ensures KeepsFacts(pc0.m, pc.m)
  {
    pc := pc0;
    var p := parents[n];
    var rest := p.m.Keys;
    var done: set<Value> := {};
    SourcedGrows(parents, n, b, pc);
    while rest != {}
      invariant rest + done == p.m.Keys
      invariant pc.block == b && pc.from == map[]
      invariant NoVariantFacts(pc)
      invariant Justified(pc)
      invariant Sourced(parents, n + 1, b, pc)
      invariant Covered(parents, n, done, b, pc)
      invariant Repeated(parents, n, done, b, pc)
      invariant KeepsFacts(pc0.m, pc.m)
      decreases rest
    {
      var cnd :| cnd in rest;
      var val := p.m[cnd];
      rest := rest - {cnd};
      if cnd in p.from && p.from[cnd] == b {
        SkipKeeps(parents, n, done, b, pc, cnd);
        done := done + {cnd};
        continue;
      }
      var pc' := MergeFact(pc, cnd, val);
      MergeFactKeeps(parents, n, done, b, pc, cnd, val);
      MergeFactJustified(pc, cnd, val);
      pc, done := pc', done + {cnd};
    }
    ParentMerged(parents, n, done, b, pc);
  }

  /** A fact put by a branch of `b` itself is no offer: skipping it keeps the invariants. */
  lemma SkipKeeps(parents: seq<PreCond>, n: nat, done: set<Value>, b: BlockRef, pc: PreCond, cnd: Value)
    requires n < |parents| && !Offers(parents[n], cnd, b)
    requires Covered(parents, n, done, b, pc)
    requires Repeated(parents, n, done, b, pc)
    ensures Covered(parents, n, done + {cnd}, b, pc)
    ensures Repeated(parents, n, done + {cnd}, b, pc)
  {
    forall i, k | 0 <= i < |parents| && Visited(n, done + {cnd}, i, k) && Offers(parents[i], k, b)
      ensures k in pc.m || k in pc.conflict || HasPhi(k)
    {
      assert Visited(n, done, i, k);
    }
  }

  /** Once every key of parent `n` is visited, the first `n + 1` parents are merged. */
  lemma ParentMerged(parents: seq<PreCond>, n: nat, done: set<Value>, b: BlockRef, pc: PreCond)
    requires n < |parents| && done == parents[n].m.Keys
    requires Covered(parents, n, done, b, pc)
    requires Repeated(parents, n, done, b, pc)
    ensures Covered(parents, n + 1, {}, b, pc)
    ensures Repeated(parents, n + 1, {}, b, pc)
  {
    forall i, k | 0 <= i < |parents| && Visited(n + 1, {}, i, k) && Offers(parents[i], k, b)
      ensures Visited(n, done, i, k)
    {
    }
  }

  /** How NewPreCond merges one offered fact: existing facts stay, and the
      offer becomes a fact unless it is variant or its opposite is settled,
      in which case it becomes a conflict. */
  function MergeFact(pc: PreCond, cnd: Value, val: bool): (r: PreCond)
    ensures r.block == pc.block && r.from == pc.from
    ensures forall k :: k in pc.m ==> k in r.m && r.m[k] == pc.m[k]
    ensures forall k :: k in r.m ==> k in pc.m || (k == cnd && r.m[k] == val && !HasPhi(cnd))
    ensures forall k :: k in r.conflict ==>
              (k in pc.conflict && r.conflict[k] == pc.conflict[k]) || (k == cnd && r.conflict[k] == val && Lookup(pc, cnd, !val))
    ensures cnd in r.m || cnd in r.conflict || HasPhi(cnd)
    ensures !HasPhi(cnd) && !Lookup(pc, cnd, !val) ==> cnd in r.m
    ensures Lookup(pc, cnd, !val) ==> r.m == pc.m && cnd in r.conflict && r.conflict[cnd] == val
    ensures !Lookup(pc, cnd, !val) ==> r.conflict == pc.conflict
  {
    if Lookup(pc, cnd, !val) then pc.(conflict := pc.conflict[cnd := val])
    else if HasPhi(cnd) then pc
    else pc.(m := pc.m[cnd := val])
  }

  /** A store whose fact map only grows settles at least what it settled. */
  lemma LookupGrows(pc: PreCond, pc': PreCond, v: Value, val: bool)
    requires forall k :: k in pc.m ==> k in pc'.m && pc'.m[k] == pc.m[k]
    requires Lookup(pc, v, val)
    ensures Lookup(pc', v, val)
  {
    if v !in pc.m {
      var c :| c in pc.m && Equal(Cond(v, val), Cond(c, pc.m[c]));
      assert c in pc'.m && Equal(Cond(v, val), Cond(c, pc'.m[c]));
    }
  }

  /** Merging one fact keeps every conflict justified. */
  lemma MergeFactJustified(pc: PreCond, cnd: Value, val: bool)
    requires Justified(pc)
    ensures Justified(MergeFact(pc, cnd, val))
  {
    var r := MergeFact(pc, cnd, val);
    forall k | k in r.conflict ensures Lookup(r, k, !r.conflict[k]) {
      if k in pc.conflict && r.conflict[k] == pc.conflict[k] {
        LookupGrows(pc, r, k, !pc.conflict[k]);
      } else {
        LookupGrows(pc, r, cnd, !val);
      }
    }
  }

  lemma SourcedGrows(parents: seq<PreCond>, n: nat, b: BlockRef, pc: PreCond)
    requires n < |parents|
    requires Sourced(parents, n, b, pc)
    ensures Sourced(parents, n + 1, b, pc)
  {
    forall k | k in pc.m ensures OfferedBy(parents, n + 1, k, pc.m[k], b) {
      var i :| 0 <= i < n && Offers(parents[i], k, b) && parents[i].m[k] == pc.m[k];
    }
    forall k | k in pc.conflict ensures OfferedBy(parents, n + 1, k, pc.conflict[k], b) {
      var i :| 0 <= i < n && Offers(parents[i], k, b) && parents[i].m[k] == pc.conflict[k];
    }
  }

  /** Merging an offered fact of parent `n` keeps the merge invariants. */
  lemma MergeFactKeeps(parents: seq<PreCond>, n: nat, done: set<Value>, b: BlockRef, pc: PreCond, cnd: Value, val: bool)
    requires n < |parents| && Offers(parents[n], cnd, b) && parents[n].m[cnd] == val
    requires NoVariantFacts(pc)
    requires Sourced(parents, n + 1, b, pc)
    requires Covered(parents, n, done, b, pc)
    requires Repeated(parents, n, done, b, pc)
    ensures var pc' := MergeFact(pc, cnd, val);
      && pc'.block == pc.block && pc'.from == pc.from
      && NoVariantFacts(pc')
      && Sourced(parents, n + 1, b, pc')
      && Covered(parents, n, done + {cnd}, b, pc')
      && Repeated(parents, n, done + {cnd}, b, pc')
  {
    MergeFactSourced(parents, n, b, pc, cnd, val);
    MergeFactCovered(parents, n, done, b, pc, cnd, val);
    MergeFactRepeated(parents, n, done, b, pc, cnd, val);
  }

  lemma MergeFactSourced(parents: seq<PreCond>, n: nat, b: BlockRef, pc: PreCond, cnd: Value, val: bool)
    requires n < |parents| && Offers(parents[n], cnd, b) && parents[n].m[cnd] == val
    requires NoVariantFacts(pc)
    requires Sourced(parents, n + 1, b, pc)
    ensures NoVariantFacts(MergeFact(pc, cnd, val))
    ensures Sourced(parents, n + 1, b, MergeFact(pc, cnd, val))
  {
    assert OfferedBy(parents, n + 1, cnd, val, b);
  }

  lemma MergeFactCovered(parents: seq<PreCond>, n: nat, done: set<Value>, b: BlockRef, pc: PreCond, cnd: Value, val: bool)
    requires n < |parents|
    requires Covered(parents, n, done, b, pc)
    ensures Covered(parents, n, done + {cnd}, b, MergeFact(pc, cnd, val))
  {
    var pc' := MergeFact(pc, cnd, val);
    assert pc.m.Keys <= pc'.m.Keys && pc.conflict.Keys <= pc'.conflict.Keys;
    assert cnd in pc'.m || cnd in pc'.conflict || HasPhi(cnd);
    forall i, k | 0 <= i < |parents| && Visited(n, done + {cnd}, i, k) && Offers(parents[i], k, b)
      ensures k in pc'.m || k in pc'.conflict || HasPhi(k)
    {
      if !Visited(n, done, i, k) {
        assert k == cnd;
      }
    }
  }

  lemma MergeFactRepeated(parents: seq<PreCond>, n: nat, done: set<Value>, b: BlockRef, pc: PreCond, cnd: Value, val: bool)
    requires n < |parents|
    requires Covered(parents, n, done, b, pc)
    requires Repeated(parents, n, done, b, pc)
    ensures Repeated(parents, n, done + {cnd}, b, MergeFact(pc, cnd, val))
  {
    var pc' := MergeFact(pc, cnd, val);
    assert pc.conflict.Keys <= pc'.conflict.Keys;
    assert cnd in pc.m ==> cnd in pc'.conflict;
    assert cnd in pc.conflict ==> cnd in pc'.conflict;
    forall i, j, k | 0 <= i < j < |parents| && Visited(n, done + {cnd}, j, k) && Offers(parents[i], k, b) &&
      Offers(parents[j], k, b) && !HasPhi(k)
      ensures k in pc'.conflict
    {
      if !Visited(n, done, j, k) {
        assert k == cnd && j == n;
        assert Visited(n, done, i, k);
      }
    }
  }
}
