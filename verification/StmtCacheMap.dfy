/** The statement cache against a map that knows nothing of slots: at most SIZE
    entries by hash, the least recently used making room. */
module StmtCacheMap {
  import opened Common
  import opened StmtCache

  type Table = map<nat, Entry>

  /** No entry is older than the largest time. */
  ghost predicate AtMax(m: Table) {
    forall h :: h in m ==> m[h].lastUsed >= TIME_MAX
  }

  ghost predicate Victim(m: Table, v: nat) {
    v in m && forall h :: h in m ==> m[v].lastUsed <= m[h].lastUsed
  }

  /** What an operation may make of the map; the victim among equally old
      entries is left open. */
  ghost predicate Steps(m: Table, op: Op, m': Table) {
    match op
    case ClearOp => m' == map[]
    case LookupOp(h, now) => m' == if h in m then m[h := m[h].(lastUsed := now)] else m
    case AddOp(e) =>
      if e.hash == 0 then m' == m
      else if e.hash in m || |m| < SIZE then m' == m[e.hash := e]
      else if AtMax(m) then m' == m
      else exists v: nat :: Victim(m, v) && m' == (m - {v})[e.hash := e]
  }

  ghost predicate Runs(m: Table, ops: seq<Op>, m': Table)
    decreases ops
  {
    if ops == [] then m' == m
    else exists next :: Steps(m, ops[0], next) && Runs(next, ops[1..], m')
  }

  // ----- how full the table is ------------------------------------------

  lemma {:induction false} NamesFill(t: Slots)
    ensures |Names(t)| <= |t| && (|Names(t)| == |t| <==> AllTaken(t))
  {
    if t != [] {
      NamesFill(t[1..]);
      assert AllTaken(t) <==> t[0].Some? && AllTaken(t[1..]) by {
        assert t == [t[0]] + t[1..];
      }
    }
  }

  lemma ContentsFill(t: Slots)
    requires Inv(t)
    ensures |Contents(t)| <= SIZE && (|Contents(t)| == SIZE <==> AllTaken(t))
  {
    NamesFill(t);
    NamesCountKeys(t);
    assert Contents(t).Keys == Keys(t);
  }

  lemma AtMaxIs(t: Slots)
    requires Inv(t) && AllTaken(t)
    ensures AllAtMax(t) <==> AtMax(Contents(t))
  {
    hide Reachable;
    var m := Contents(t);
    if AtMax(m) {
      forall k | 0 <= k < |t|
        ensures t[k].value.lastUsed >= TIME_MAX
      {
        assert t[k].value.hash in m;
      }
    }
  }

  // ----- the refinement -------------------------------------------------

  lemma AddToFull(t: Slots, e: Entry)
    requires Inv(t) && Inv(Add(t, e).slots) && e.hash != 0 && Search(t, e.hash).Full?
    ensures Steps(Contents(t), AddOp(e), Contents(Add(t, e).slots))
  {
    hide Reachable, Unique, Contents, Search;
    EvictsOnlyWhenFull(t, e);
    ContentsFill(t);
    FullMeansTaken(t, e.hash);
    MissMeansAbsent(t, e.hash);
    AtMaxIs(t);
    if Add(t, e).evicted.Some? {
      AddEvicts(t, e);
      assert Victim(Contents(t), Add(t, e).evicted.value.hash);
    }
  }

  lemma AddRefines(t: Slots, e: Entry)
    requires Inv(t) && Inv(Add(t, e).slots)
    ensures Steps(Contents(t), AddOp(e), Contents(Add(t, e).slots))
  {
    hide Reachable, Unique, Contents, Search, AllTaken, AllAtMax, AtMax, Victim;
    if e.hash == 0 {
    } else if Search(t, e.hash).Full? {
      AddToFull(t, e);
    } else if Search(t, e.hash).Hit? {
      AddUpdates(t, e);
    } else {
      AddInserts(t, e);
      NotFull(t, e.hash);
      ContentsFill(t);
    }
  }

  lemma NotFull(t: Slots, hash: nat)
    requires Inv(t) && Search(t, hash).Vacant?
    ensures !AllTaken(t)
  {
    SearchSpec(t, hash, 0);
  }

  lemma StepRefines(t: Slots, op: Op)
    requires Inv(t)
    ensures Inv(After(t, op)) && Steps(Contents(t), op, Contents(After(t, op)))
  {
    StepKeepsInv(t, op);
    match op
    case AddOp(e) => AddRefines(t, e);
    case LookupOp(h, now) => TouchAgrees(t, h, now);
    case ClearOp => EmptyContents();
  }

  lemma EmptyContents()
    ensures Inv(Empty()) && Contents(Empty()) == map[]
  {
    EmptyInv();
    assert Keys(Empty()) == {};
  }

  lemma {:induction false} RunRefines(t: Slots, ops: seq<Op>)
    requires Inv(t)
    ensures Inv(Run(t, ops)) && Runs(Contents(t), ops, Contents(Run(t, ops)))
    decreases ops
  {
    hide Reachable, Unique, Contents, Steps, After;
    if ops != [] {
      StepRefines(t, ops[0]);
      RunRefines(After(t, ops[0]), ops[1..]);
    }
  }

  /** Every run of a new cache is a run of the map from empty, and what a lookup
      then finds is what the map holds. */
  lemma CacheIsAMap(ops: seq<Op>, h: nat)
    ensures var t := Run(Empty(), ops);
      && Inv(t) && Runs(map[], ops, Contents(t))
      && Found(t, h) == if h in Contents(t) then Some(Contents(t)[h]) else None
  {
    EmptyContents();
    RunRefines(Empty(), ops);
    LookupAgrees(Run(Empty(), ops), h);
  }

  // ----- nothing added is lost unseen -----------------------------------

  lemma {:induction false} RunSplit(t: Slots, xs: seq<Op>, ys: seq<Op>)
    requires |t| == SIZE
    ensures Run(t, xs + ys) == Run(Run(t, xs), ys)
    decreases xs
  {
    if xs == [] {
      assert xs + ys == ys;
    } else {
      assert (xs + ys)[1..] == xs[1..] + ys;
      RunSplit(After(t, xs[0]), xs[1..], ys);
    }
  }

  /** An entry the cache accepted is found at the end of the run, unless a clear
      came after it or an entry of its hash was evicted after it, and then that
      entry's name was reported. */
  lemma AddedIsFoundOrReported(before: seq<Op>, e: Entry, after: seq<Op>)
    requires Add(Run(Empty(), before), e).index != -1
    requires forall i :: 0 <= i < |after| ==> !after[i].ClearOp?
    ensures var t := Run(Empty(), before + [AddOp(e)]);
      || Found(Run(Empty(), before + [AddOp(e)] + after), e.hash).Some?
      || exists v :: v in AllEvicted(t, after) && v.hash == e.hash && v.name in AllReported(t, after)
  {
    var s := Run(Empty(), before);
    EmptyInv();
    RunKeepsInv(Empty(), before);
    RunSplit(Empty(), before, [AddOp(e)]);
    assert [AddOp(e)][1..] == [];
    var t := After(s, AddOp(e));
    assert Run(s, [AddOp(e)]) == t;
    RunSplit(Empty(), before + [AddOp(e)], after);
    StepKeepsInv(s, AddOp(e));
    AddedIsHeld(s, e);
    KeysAreFoundOrEvicted(t, after, e.hash);
    EvictionsAreReported(t, after);
  }

  lemma AddedIsHeld(t: Slots, e: Entry)
    requires Inv(t) && Add(t, e).index != -1
    ensures Inv(Add(t, e).slots) && e.hash in Contents(Add(t, e).slots)
  {
    EvictsOnlyWhenFull(t, e);
    StepKeepsInv(t, AddOp(e));
    match Search(t, e.hash)
    case Hit(_) => AddUpdates(t, e);
    case Vacant(_) => AddInserts(t, e);
    case Full => AddEvicts(t, e);
  }
}
