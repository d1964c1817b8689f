/** The per-connection prepared-statement cache: an open-addressing table of
    512 slots with linear probing, which evicts the least recently used entry
    when it is full. */
module StmtCache {
  import opened Common

  const SIZE: nat := 512
  const TIME_MAX: int := 0x7fff_ffff_ffff_ffff

  datatype Entry = Entry(hash: nat, name: string, paramCount: int, lastUsed: int)

  type Slots = seq<Option<Entry>>

  // ----- probing --------------------------------------------------------

  /** The slot the i-th probe for a hash looks at. */
  function At(hash: nat, i: nat): (k: nat)
    ensures k < SIZE
  {
    (hash % SIZE + i) % SIZE
  }

  /** How many probes come before slot k. */
  function Distance(hash: nat, k: nat): (i: nat)
    requires k < SIZE
    ensures i < SIZE && At(hash, i) == k
  {
    if hash % SIZE <= k then k - hash % SIZE else k + SIZE - hash % SIZE
  }

  lemma DistanceAt(hash: nat, i: nat)
    requires i < SIZE
    ensures Distance(hash, At(hash, i)) == i
  {
  }

  datatype Probe = Hit(index: nat) | Vacant(index: nat) | Full

  /** Where the probe sequence of a hash ends. */
  function Search(t: Slots, hash: nat, i: nat := 0): (p: Probe)
    requires |t| == SIZE && i <= SIZE
    ensures !p.Full? ==> p.index < SIZE
    decreases SIZE - i
  {
    if i == SIZE then Full
    else
      var k := At(hash, i);
      if t[k].None? then Vacant(k)
      else if t[k].value.hash == hash then Hit(k)
      else Search(t, hash, i + 1)
  }

  function Found(t: Slots, hash: nat): Option<Entry>
    requires |t| == SIZE
  {
    if hash == 0 then None
    else
      match Search(t, hash)
      case Hit(k) => t[k]
      case _ => None
  }

  // ----- the invariant and the abstract map -----------------------------

  /** At most one slot per hash. */
  ghost predicate Unique(t: Slots) {
    forall j, k :: (0 <= j < |t| && 0 <= k < |t| && t[j].Some? && t[k].Some?
                    && t[j].value.hash == t[k].value.hash) ==> j == k
  }

  /** No empty slot between a hash's first probe and its slot, the wrap past
      the end included. */
  ghost predicate Reachable(t: Slots, k: nat)
    requires |t| == SIZE && k < SIZE && t[k].Some?
  {
    forall i :: 0 <= i < Distance(t[k].value.hash, k) ==> t[At(t[k].value.hash, i)].Some?
  }

  ghost predicate Inv(t: Slots) {
    && |t| == SIZE
    && Unique(t)
    && (forall k :: 0 <= k < SIZE && t[k].Some? ==> t[k].value.hash != 0 && Reachable(t, k))
  }

  ghost function Contents(t: Slots): (m: map<nat, Entry>)
    requires Unique(t)
    ensures forall k :: 0 <= k < |t| && t[k].Some? ==>
              t[k].value.hash in m && m[t[k].value.hash] == t[k].value
    ensures forall h :: h in m ==> exists k :: 0 <= k < |t| && t[k] == Some(m[h]) && m[h].hash == h
  {
    map h | h in Keys(t) :: t[SlotOf(t, h)].value
  }

  function Keys(t: Slots): set<nat> {
    set k | 0 <= k < |t| && t[k].Some? :: t[k].value.hash
  }

  ghost function SlotOf(t: Slots, h: nat): (k: nat)
    requires h in Keys(t)
    ensures k < |t| && t[k].Some? && t[k].value.hash == h
  {
    var k :| 0 <= k < |t| && t[k].Some? && t[k].value.hash == h;
    k
  }

  /** What the search says about the slots it passed. */
  lemma {:induction false} SearchSpec(t: Slots, hash: nat, i: nat)
    requires |t| == SIZE && i <= SIZE
    ensures match Search(t, hash, i)
      case Hit(k) => k < SIZE && t[k].Some? && t[k].value.hash == hash
      case Vacant(k) => k < SIZE && t[k].None? && i <= Distance(hash, k)
                        && forall j :: i <= j < Distance(hash, k) ==>
                             t[At(hash, j)].Some? && t[At(hash, j)].value.hash != hash
      case Full => forall j :: i <= j < SIZE ==> t[At(hash, j)].Some? && t[At(hash, j)].value.hash != hash
    decreases SIZE - i
  {
    if i < SIZE && t[At(hash, i)].Some? && t[At(hash, i)].value.hash != hash {
      SearchSpec(t, hash, i + 1);
    }
    if i < SIZE {
      DistanceAt(hash, i);
    }
  }

  lemma NotInSlot(t: Slots, hash: nat, k: nat)
    requires Inv(t) && !Search(t, hash).Hit? && k < SIZE && t[k].Some?
    ensures t[k].value.hash != hash
  {
    SearchSpec(t, hash, 0);
    var d := Distance(hash, k);
    assert At(hash, d) == k;
    if Search(t, hash).Vacant? {
      var v := Search(t, hash).index;
      var dv := Distance(hash, v);
      assert At(hash, dv) == v;
      assert Reachable(t, k);
      assert dv < d ==> t[k].value.hash != hash;
    }
  }

  /** A search that does not hit proves the hash absent. */
  lemma MissMeansAbsent(t: Slots, hash: nat)
    requires Inv(t) && !Search(t, hash).Hit?
    ensures hash !in Contents(t)
  {
    forall k | 0 <= k < SIZE && t[k].Some?
      ensures t[k].value.hash != hash
    {
      NotInSlot(t, hash, k);
    }
  }

  /** Probing lookup agrees with the abstract map. */
  lemma LookupAgrees(t: Slots, hash: nat)
    requires Inv(t)
    ensures Found(t, hash) == if hash in Contents(t) then Some(Contents(t)[hash]) else None
  {
    SearchSpec(t, hash, 0);
    if !Search(t, hash).Hit? {
      MissMeansAbsent(t, hash);
    }
  }

  // ----- updates of one slot --------------------------------------------

  /** The hash, if any, that leaves when slot k is overwritten. */
  function Leaving(t: Slots, k: nat): set<nat>
    requires k < |t|
  {
    if t[k].Some? then {t[k].value.hash} else {}
  }

  /** Overwriting a slot with a hash no other slot holds. */
  lemma UniqueAfter(t: Slots, k: nat, e: Entry)
    requires Unique(t) && k < |t|
    requires e.hash !in Contents(t) || Leaving(t, k) == {e.hash}
    ensures Unique(t[k := Some(e)])
  {
    forall j | 0 <= j < |t| && j != k && t[j].Some?
      ensures t[j].value.hash != e.hash
    {
      assert t[k].Some? && t[k].value.hash == t[j].value.hash ==> j == k;
      assert t[j].value.hash in Contents(t);
      assert Leaving(t, k) == {e.hash} ==> e.hash in Leaving(t, k);
    }
  }

  lemma KeysAfter(t: Slots, k: nat, e: Entry)
    requires Unique(t) && k < |t| && Unique(t[k := Some(e)])
    ensures Keys(t[k := Some(e)]) == (Keys(t) - Leaving(t, k)) + {e.hash}
  {
    var t' := t[k := Some(e)];
    assert t'[k].value.hash == e.hash;
    forall h | h in Keys(t') && h != e.hash
      ensures h in Keys(t) && h !in Leaving(t, k)
    {
      var j := SlotOf(t', h);
      assert t[j] == t'[j];
    }
    forall h | h in Keys(t) && h !in Leaving(t, k)
      ensures h in Keys(t')
    {
      var j := SlotOf(t, h);
      assert t[j] == t'[j];
    }
  }

  lemma ValueAfter(t: Slots, k: nat, e: Entry, h: nat)
    requires Unique(t) && k < |t| && Unique(t[k := Some(e)]) && h in Keys(t[k := Some(e)])
    ensures h == e.hash ==> Contents(t[k := Some(e)])[h] == e
    ensures h != e.hash ==> h in Keys(t) && Contents(t[k := Some(e)])[h] == Contents(t)[h]
  {
    var t' := t[k := Some(e)];
    var j := SlotOf(t', h);
    assert t'[k].value == e;
    assert h != e.hash ==> t[j] == t'[j];
  }

  lemma ContentsAfter(t: Slots, k: nat, e: Entry)
    requires Unique(t) && k < |t| && Unique(t[k := Some(e)])
    ensures Contents(t[k := Some(e)]) == (Contents(t) - Leaving(t, k))[e.hash := e]
  {
    var m', m := Contents(t[k := Some(e)]), (Contents(t) - Leaving(t, k))[e.hash := e];
    KeysAfter(t, k, e);
    assert m'.Keys == m.Keys;
    forall h | h in m'
      ensures m'[h] == m[h]
    {
      ValueAfter(t, k, e, h);
    }
  }

  /** Filling a slot whose earlier probes are all taken breaks no chain. */
  lemma InvAfter(t: Slots, k: nat, e: Entry)
    requires Inv(t) && k < SIZE && e.hash != 0 && Unique(t[k := Some(e)])
    requires forall i :: 0 <= i < Distance(e.hash, k) ==> t[At(e.hash, i)].Some?
    ensures Inv(t[k := Some(e)])
  {
    var t' := t[k := Some(e)];
    forall j | 0 <= j < SIZE && t'[j].Some?
      ensures t'[j].value.hash != 0 && Reachable(t', j)
    {
      assert j != k ==> t[j] == t'[j] && Reachable(t, j);
    }
  }

  lemma StoreKeepsInv(t: Slots, k: nat, e: Entry)
    requires Inv(t) && k < SIZE && e.hash != 0
    requires e.hash !in Contents(t) || Leaving(t, k) == {e.hash}
    requires forall i :: 0 <= i < Distance(e.hash, k) ==> t[At(e.hash, i)].Some?
    ensures Inv(t[k := Some(e)])
    ensures Contents(t[k := Some(e)]) == (Contents(t) - Leaving(t, k))[e.hash := e]
  {
    UniqueAfter(t, k, e);
    InvAfter(t, k, e);
    ContentsAfter(t, k, e);
  }

  // ----- adding ---------------------------------------------------------

  /** The first of the least recently used entries among the first n probes,
      None when none of them is older than the largest time. */
  function Oldest(t: Slots, hash: nat, n: nat): (r: Option<nat>)
    requires |t| == SIZE && n <= SIZE
    ensures r.Some? ==> r.value < SIZE && t[r.value].Some?
  {
    if n == 0 then None
    else
      var before, k := Oldest(t, hash, n - 1), At(hash, n - 1);
      if t[k].Some? && t[k].value.lastUsed < TimeOf(t, before) then Some(k) else before
  }

  function TimeOf(t: Slots, r: Option<nat>): int
    requires r.Some? ==> r.value < |t| && t[r.value].Some?
  {
    if r.Some? then t[r.value].value.lastUsed else TIME_MAX
  }

  lemma {:induction false} OldestSpec(t: Slots, hash: nat, n: nat)
    requires |t| == SIZE && n <= SIZE
    ensures forall i :: 0 <= i < n && t[At(hash, i)].Some? ==>
              TimeOf(t, Oldest(t, hash, n)) <= t[At(hash, i)].value.lastUsed
              || TIME_MAX <= t[At(hash, i)].value.lastUsed
    ensures TimeOf(t, Oldest(t, hash, n)) <= TIME_MAX
    ensures Oldest(t, hash, n).Some? ==> TimeOf(t, Oldest(t, hash, n)) < TIME_MAX
  {
    if n > 0 {
      OldestSpec(t, hash, n - 1);
    }
  }

  datatype Added = Added(slots: Slots, index: int, evicted: Option<Entry>)

  /** What `add` does to the table, the index it answers and the entry whose
      name it reports. */
  function Add(t: Slots, e: Entry): Added
    requires |t| == SIZE
  {
    if e.hash == 0 then Added(t, -1, None)
    else
      match Search(t, e.hash)
      case Hit(k) => Added(t[k := Some(e)], k, None)
      case Vacant(k) => Added(t[k := Some(e)], k, None)
      case Full =>
        match Oldest(t, e.hash, SIZE)
        case Some(k) => Added(t[k := Some(e)], k, t[k])
        case None => Added(t, -1, None)
  }

  ghost predicate AllTaken(t: Slots) {
    forall k :: 0 <= k < |t| ==> t[k].Some?
  }

  lemma FullMeansTaken(t: Slots, hash: nat)
    requires |t| == SIZE && Search(t, hash).Full?
    ensures AllTaken(t)
  {
    SearchSpec(t, hash, 0);
    forall k | 0 <= k < SIZE
      ensures t[k].Some?
    {
      assert At(hash, Distance(hash, k)) == k;
    }
  }

  /** The oldest of a full table is no younger than any of its entries. */
  lemma OldestOfAll(t: Slots, hash: nat, k: nat)
    requires |t| == SIZE && AllTaken(t) && k < SIZE
    ensures TimeOf(t, Oldest(t, hash, SIZE)) <= t[k].value.lastUsed || TIME_MAX <= t[k].value.lastUsed
  {
    OldestSpec(t, hash, SIZE);
    assert At(hash, Distance(hash, k)) == k;
  }

  lemma AddUpdates(t: Slots, e: Entry)
    requires Inv(t) && e.hash != 0 && Search(t, e.hash).Hit?
    ensures e.hash in Contents(t)
    ensures Inv(Add(t, e).slots) && Contents(Add(t, e).slots) == Contents(t)[e.hash := e]
  {
    SearchSpec(t, e.hash, 0);
    var k := Search(t, e.hash).index;
    assert Reachable(t, k);
    StoreKeepsInv(t, k, e);
    Refresh(Contents(t), e.hash, e);
  }

  lemma Refresh(m: map<nat, Entry>, h: nat, e: Entry)
    ensures (m - {h})[h := e] == m[h := e]
  {
  }

  lemma AddInserts(t: Slots, e: Entry)
    requires Inv(t) && e.hash != 0 && Search(t, e.hash).Vacant?
    ensures e.hash !in Contents(t)
    ensures Inv(Add(t, e).slots) && Contents(Add(t, e).slots) == Contents(t)[e.hash := e]
  {
    SearchSpec(t, e.hash, 0);
    var k := Search(t, e.hash).index;
    MissMeansAbsent(t, e.hash);
    StoreKeepsInv(t, k, e);
    assert Contents(t) - {} == Contents(t);
  }

  /** A store into a full table that does not hold the hash: the victim is an
      entry of least last use, and no other entry is lost. */
  lemma AddEvicts(t: Slots, e: Entry)
    requires Inv(t) && e.hash != 0 && Search(t, e.hash).Full? && Add(t, e).evicted.Some?
    ensures e.hash !in Contents(t)
    ensures Inv(Add(t, e).slots)
    ensures var victim := Add(t, e).evicted.value;
      && victim.hash in Contents(t) && Contents(t)[victim.hash] == victim
      && (forall h :: h in Contents(t) ==> victim.lastUsed <= Contents(t)[h].lastUsed)
      && Contents(Add(t, e).slots) == (Contents(t) - {victim.hash})[e.hash := e]
  {
    FullMeansTaken(t, e.hash);
    MissMeansAbsent(t, e.hash);
    OldestSpec(t, e.hash, SIZE);
    var k := Oldest(t, e.hash, SIZE).value;
    StoreKeepsInv(t, k, e);
    forall h | h in Contents(t)
      ensures t[k].value.lastUsed <= Contents(t)[h].lastUsed
    {
      var j :| 0 <= j < |t| && t[j] == Some(Contents(t)[h]) && Contents(t)[h].hash == h;
      OldestOfAll(t, e.hash, j);
    }
  }

  /** Every entry was last used at the largest time: nothing is older. */
  ghost predicate AllAtMax(t: Slots)
    requires AllTaken(t)
  {
    forall k :: 0 <= k < |t| ==> t[k].value.lastUsed >= TIME_MAX
  }

  lemma OldestNone(t: Slots, hash: nat)
    requires |t| == SIZE && AllTaken(t)
    ensures Oldest(t, hash, SIZE).None? <==> AllAtMax(t)
  {
    OldestSpec(t, hash, SIZE);
    forall k | 0 <= k < SIZE && Oldest(t, hash, SIZE).None?
      ensures t[k].value.lastUsed >= TIME_MAX
    {
      OldestOfAll(t, hash, k);
    }
  }

  lemma FullWhen(t: Slots, hash: nat)
    requires Inv(t)
    ensures Search(t, hash).Full? <==> AllTaken(t) && hash !in Contents(t)
  {
    SearchSpec(t, hash, 0);
    if Search(t, hash).Full? {
      FullMeansTaken(t, hash);
      MissMeansAbsent(t, hash);
    }
  }

  /** An entry is evicted exactly when every slot is taken, the hash is absent
      and some entry is older than the largest time; the table refuses an
      entry exactly when the hash is zero or no entry is. */
  lemma EvictsOnlyWhenFull(t: Slots, e: Entry)
    requires Inv(t)
    ensures Add(t, e).evicted.Some? <==>
            e.hash != 0 && AllTaken(t) && e.hash !in Contents(t) && !AllAtMax(t)
    ensures Add(t, e).index == -1 <==>
            e.hash == 0 || (AllTaken(t) && e.hash !in Contents(t) && AllAtMax(t))
    ensures Add(t, e).index == -1 ==> Add(t, e) == Added(t, -1, None)
  {
    FullWhen(t, e.hash);
    if AllTaken(t) {
      OldestNone(t, e.hash);
    }
  }

  // ----- names and their conservation -----------------------------------

  function NameIn(slot: Option<Entry>): seq<string> {
    if slot.Some? then [slot.value.name] else []
  }

  /** The names the table holds, in slot order. */
  function Names(t: Slots): seq<string> {
    if t == [] then [] else NameIn(t[0]) + Names(t[1..])
  }

  lemma NamesFrom(t: Slots, i: nat)
    requires i < |t|
    ensures Names(t[i..]) == NameIn(t[i]) + Names(t[i + 1..])
  {
    assert t[i..][1..] == t[i + 1..];
  }

  function Empty(): (t: Slots)
    ensures |t| == SIZE && forall k :: 0 <= k < SIZE ==> t[k] == None
  {
    seq(SIZE, _ => None)
  }

  lemma {:induction false} NamesOfNone(t: Slots)
    requires forall k :: 0 <= k < |t| ==> t[k].None?
    ensures Names(t) == []
  {
    if t != [] {
      NamesOfNone(t[1..]);
    }
  }

  /** How often a name occurs in a list, in a slot, in the table. */
  function Times(names: seq<string>, x: string): nat {
    if names == [] then 0 else (if names[0] == x then 1 else 0) + Times(names[1..], x)
  }

  function InSlot(slot: Option<Entry>, x: string): nat {
    if slot.Some? && slot.value.name == x then 1 else 0
  }

  function Held(t: Slots, x: string): nat {
    if t == [] then 0 else InSlot(t[0], x) + Held(t[1..], x)
  }

  lemma {:induction false} HeldSplit(a: Slots, b: Slots, x: string)
    ensures Held(a + b, x) == Held(a, x) + Held(b, x)
  {
    if a == [] {
      assert a + b == b;
    } else {
      assert (a + b)[1..] == a[1..] + b;
      HeldSplit(a[1..], b, x);
    }
  }

  /** Overwriting a slot swaps its name for the new one. */
  lemma HeldAfter(t: Slots, k: nat, e: Entry, x: string)
    requires k < |t|
    ensures Held(t[k := Some(e)], x) + InSlot(t[k], x) == Held(t, x) + InSlot(Some(e), x)
  {
    var t' := t[k := Some(e)];
    assert t == t[..k] + t[k..] && t' == t[..k] + t'[k..];
    assert t[k..][1..] == t[k + 1..] && t'[k..][1..] == t[k + 1..];
    HeldSplit(t[..k], t[k..], x);
    HeldSplit(t[..k], t'[k..], x);
  }

  /** The names listed for a clear are the names held. */
  lemma {:induction false} NamesHeld(t: Slots, x: string)
    ensures Times(Names(t), x) == Held(t, x)
  {
    if t != [] {
      NamesHeld(t[1..], x);
      if t[0].Some? {
        assert Names(t)[1..] == Names(t[1..]);
      } else {
        assert Names(t) == Names(t[1..]);
      }
    }
  }

  lemma KeysCons(t: Slots)
    requires t != [] && Unique(t)
    ensures Unique(t[1..])
    ensures Keys(t) == Leaving(t, 0) + Keys(t[1..])
    ensures Leaving(t, 0) !! Keys(t[1..])
  {
    var rest := t[1..];
    assert forall k :: 0 <= k < |rest| ==> rest[k] == t[k + 1];
    forall h | h in Keys(t)
      ensures h in Leaving(t, 0) || h in Keys(rest)
    {
      var k := SlotOf(t, h);
      assert k > 0 ==> rest[k - 1] == t[k];
    }
    forall h | h in Keys(rest)
      ensures h in Keys(t) && h !in Leaving(t, 0)
    {
      var k := SlotOf(rest, h);
      assert t[k + 1].value.hash == h;
    }
  }

  /** One name for each key. */
  lemma {:induction false} NamesCountKeys(t: Slots)
    requires Unique(t)
    ensures |Names(t)| == |Keys(t)|
  {
    if t != [] {
      KeysCons(t);
      NamesCountKeys(t[1..]);
    }
  }

  /** `lookup_mut` and the new time its caller writes into the entry. */
  function Touch(t: Slots, hash: nat, now: int): Slots
    requires |t| == SIZE
  {
    if hash != 0 && Search(t, hash).Hit? && t[Search(t, hash).index].Some? then
      var k := Search(t, hash).index;
      t[k := Some(t[k].value.(lastUsed := now))]
    else t
  }

  lemma TouchAgrees(t: Slots, hash: nat, now: int)
    requires Inv(t)
    ensures Inv(Touch(t, hash, now))
    ensures Contents(Touch(t, hash, now)) ==
            if hash in Contents(t) then Contents(t)[hash := Contents(t)[hash].(lastUsed := now)] else Contents(t)
  {
    SearchSpec(t, hash, 0);
    if hash == 0 {
    } else if Search(t, hash).Hit? {
      var k := Search(t, hash).index;
      var e := t[k].value.(lastUsed := now);
      assert Add(t, e).slots == Touch(t, hash, now);
      AddUpdates(t, e);
    } else {
      MissMeansAbsent(t, hash);
    }
  }

  // ----- runs -----------------------------------------------------------

  datatype Op = AddOp(entry: Entry) | LookupOp(hash: nat, now: int) | ClearOp

  function After(t: Slots, op: Op): (t': Slots)
    requires |t| == SIZE
    ensures |t'| == SIZE
  {
    match op
    case AddOp(e) => Add(t, e).slots
    case LookupOp(h, now) => Touch(t, h, now)
    case ClearOp => Empty()
  }

  /** The names an operation hands back for DEALLOCATE. */
  function Reported(t: Slots, op: Op): seq<string>
    requires |t| == SIZE
  {
    match op
    case AddOp(e) => NameIn(Add(t, e).evicted)
    case LookupOp(_, _) => []
    case ClearOp => Names(t)
  }

  /** The name a re-add of a known hash replaces; nobody is told of it. */
  function Overwritten(t: Slots, op: Op): seq<string>
    requires |t| == SIZE
  {
    if op.AddOp? && op.entry.hash != 0 && Search(t, op.entry.hash).Hit? then
      NameIn(t[Search(t, op.entry.hash).index])
    else []
  }

  function Stored(t: Slots, op: Op): seq<string>
    requires |t| == SIZE
  {
    if op.AddOp? && Add(t, op.entry).index != -1 then [op.entry.name] else []
  }

  lemma EmptyInv()
    ensures Inv(Empty()) && Contents(Empty()) == map[] && Names(Empty()) == []
  {
    NamesOfNone(Empty());
  }

  lemma StepKeepsInv(t: Slots, op: Op)
    requires Inv(t)
    ensures Inv(After(t, op))
  {
    match op
    case ClearOp => EmptyInv();
    case LookupOp(h, now) => TouchAgrees(t, h, now);
    case AddOp(e) =>
      EvictsOnlyWhenFull(t, e);
      if e.hash != 0 {
        match Search(t, e.hash)
        case Hit(_) => AddUpdates(t, e);
        case Vacant(_) => AddInserts(t, e);
        case Full => if Add(t, e).evicted.Some? { AddEvicts(t, e); }
      }
  }

  lemma AddConserves(t: Slots, e: Entry, x: string)
    requires |t| == SIZE
    ensures Held(t, x) + Times(Stored(t, AddOp(e)), x)
         == Held(Add(t, e).slots, x) + Times(Reported(t, AddOp(e)), x) + Times(Overwritten(t, AddOp(e)), x)
  {
    var k := Add(t, e).index;
    SearchSpec(t, e.hash, 0);
    if k != -1 {
      HeldAfter(t, k, e, x);
      assert Times([e.name], x) == InSlot(Some(e), x);
      assert Times(NameIn(t[k]), x) == InSlot(t[k], x);
    }
  }

  lemma TouchConserves(t: Slots, hash: nat, now: int, x: string)
    requires |t| == SIZE
    ensures Held(Touch(t, hash, now), x) == Held(t, x)
  {
    if Touch(t, hash, now) != t {
      var k := Search(t, hash).index;
      HeldAfter(t, k, t[k].value.(lastUsed := now), x);
    }
  }

  /** Every name is held, handed back or overwritten, and nothing else. */
  lemma StepConserves(t: Slots, op: Op, x: string)
    requires |t| == SIZE
    ensures Held(t, x) + Times(Stored(t, op), x)
         == Held(After(t, op), x) + Times(Reported(t, op), x) + Times(Overwritten(t, op), x)
  {
    match op
    case ClearOp =>
      NamesOfNone(Empty());
      NamesHeld(Empty(), x);
      NamesHeld(t, x);
    case LookupOp(h, now) => TouchConserves(t, h, now, x);
    case AddOp(e) => AddConserves(t, e, x);
  }

  function Run(t: Slots, ops: seq<Op>): (t': Slots)
    requires |t| == SIZE
    ensures |t'| == SIZE
    decreases ops
  {
    if ops == [] then t else Run(After(t, ops[0]), ops[1..])
  }

  function AllReported(t: Slots, ops: seq<Op>): seq<string>
    requires |t| == SIZE
    decreases ops
  {
    if ops == [] then [] else Reported(t, ops[0]) + AllReported(After(t, ops[0]), ops[1..])
  }

  function AllOverwritten(t: Slots, ops: seq<Op>): seq<string>
    requires |t| == SIZE
    decreases ops
  {
    if ops == [] then [] else Overwritten(t, ops[0]) + AllOverwritten(After(t, ops[0]), ops[1..])
  }

  function AllStored(t: Slots, ops: seq<Op>): seq<string>
    requires |t| == SIZE
    decreases ops
  {
    if ops == [] then [] else Stored(t, ops[0]) + AllStored(After(t, ops[0]), ops[1..])
  }

  /** After any run the table keeps its invariant, and with it the agreement
      of lookups with the abstract map. */
  lemma {:induction false} RunKeepsInv(t: Slots, ops: seq<Op>)
    requires Inv(t)
    ensures Inv(Run(t, ops))
    decreases ops
  {
    if ops != [] {
      StepKeepsInv(t, ops[0]);
      RunKeepsInv(After(t, ops[0]), ops[1..]);
    }
  }

  lemma {:induction false} TimesSplit(a: seq<string>, b: seq<string>, x: string)
    ensures Times(a + b, x) == Times(a, x) + Times(b, x)
  {
    if a == [] {
      assert a + b == b;
    } else {
      assert (a + b)[1..] == a[1..] + b;
      TimesSplit(a[1..], b, x);
    }
  }

  /** Every name ever stored is still held, was handed back for DEALLOCATE, or
      was overwritten by a re-add of its hash, as often as it was stored. */
  lemma {:induction false} RunConserves(t: Slots, ops: seq<Op>, x: string)
    requires |t| == SIZE
    ensures Held(t, x) + Times(AllStored(t, ops), x)
         == Held(Run(t, ops), x) + Times(AllReported(t, ops), x) + Times(AllOverwritten(t, ops), x)
    decreases ops
  {
    if ops != [] {
      var op, next := ops[0], After(t, ops[0]);
      StepConserves(t, op, x);
      RunConserves(next, ops[1..], x);
      TimesSplit(Stored(t, op), AllStored(next, ops[1..]), x);
      TimesSplit(Reported(t, op), AllReported(next, ops[1..]), x);
      TimesSplit(Overwritten(t, op), AllOverwritten(next, ops[1..]), x);
    }
  }

  /** The hash an operation evicts. */
  function Evicted(t: Slots, op: Op): set<Entry>
    requires |t| == SIZE
  {
    if op.AddOp? && Add(t, op.entry).evicted.Some? then {Add(t, op.entry).evicted.value} else {}
  }

  function AllEvicted(t: Slots, ops: seq<Op>): set<Entry>
    requires |t| == SIZE
    decreases ops
  {
    if ops == [] then {} else Evicted(t, ops[0]) + AllEvicted(After(t, ops[0]), ops[1..])
  }

  lemma StepLosesNothing(t: Slots, op: Op, h: nat)
    requires Inv(t) && Inv(After(t, op)) && !op.ClearOp?
    requires h in Contents(t) || (op.AddOp? && op.entry.hash == h && Add(t, op.entry).index != -1)
    ensures h in Contents(After(t, op)) || exists v :: v in Evicted(t, op) && v.hash == h
  {
    match op
    case LookupOp(k, now) => TouchAgrees(t, k, now);
    case AddOp(e) =>
      EvictsOnlyWhenFull(t, e);
      if e.hash != 0 {
        match Search(t, e.hash)
        case Hit(_) => AddUpdates(t, e);
        case Vacant(_) => AddInserts(t, e);
        case Full => FullAddLosesNothing(t, e, h);
      }
  }

  lemma FullAddLosesNothing(t: Slots, e: Entry, h: nat)
    requires Inv(t) && e.hash != 0 && Search(t, e.hash).Full? && Inv(Add(t, e).slots)
    requires h in Contents(t) || (e.hash == h && Add(t, e).index != -1)
    ensures h in Contents(Add(t, e).slots) || exists v :: v in Evicted(t, AddOp(e)) && v.hash == h
  {
    if Add(t, e).evicted.Some? {
      AddEvicts(t, e);
      var victim := Add(t, e).evicted.value;
      assert victim in Evicted(t, AddOp(e));
    }
  }

  /** Since the last clear, every key the table held is still found, or an
      entry of that key was evicted. */
  lemma {:induction false} KeysAreFoundOrEvicted(t: Slots, ops: seq<Op>, h: nat)
    requires Inv(t) && h in Contents(t)
    requires forall i :: 0 <= i < |ops| ==> !ops[i].ClearOp?
    ensures Found(Run(t, ops), h).Some? || exists v :: v in AllEvicted(t, ops) && v.hash == h
    decreases ops
  {
    if ops == [] {
      LookupAgrees(t, h);
    } else {
      var next := After(t, ops[0]);
      StepKeepsInv(t, ops[0]);
      StepLosesNothing(t, ops[0], h);
      if h in Contents(next) {
        KeysAreFoundOrEvicted(next, ops[1..], h);
        if v :| v in AllEvicted(next, ops[1..]) && v.hash == h {
          assert v in AllEvicted(t, ops);
        }
      } else {
        var v :| v in Evicted(t, ops[0]) && v.hash == h;
        assert v in AllEvicted(t, ops);
      }
    }
  }

  /** The name of every evicted entry is reported. */
  lemma {:induction false} EvictionsAreReported(t: Slots, ops: seq<Op>)
    requires |t| == SIZE
    ensures forall v :: v in AllEvicted(t, ops) ==> v.name in AllReported(t, ops)
    decreases ops
  {
    if ops != [] {
      EvictionsAreReported(After(t, ops[0]), ops[1..]);
    }
  }

  lemma {:induction false} NamesSplit(a: Slots, b: Slots)
    ensures Names(a + b) == Names(a) + Names(b)
  {
    if a == [] {
      assert a + b == b;
    } else {
      assert (a + b)[1..] == a[1..] + b;
      NamesSplit(a[1..], b);
    }
  }

  lemma NamesLength(t: Slots, k: nat, e: Entry)
    requires k < |t|
    ensures |Names(t[k := Some(e)])| == |Names(t)| + if t[k].None? then 1 else 0
  {
    var t' := t[k := Some(e)];
    assert t == t[..k] + t[k..] && t' == t[..k] + t'[k..];
    assert t[k..][1..] == t[k + 1..] && t'[k..][1..] == t[k + 1..];
    NamesSplit(t[..k], t[k..]);
    NamesSplit(t[..k], t'[k..]);
  }

  // ----- the cache object -----------------------------------------------

  class Cache {
    const entries: array<Option<Entry>>
    var count: nat

    /** The table's size and the count of its occupied slots. */
    ghost predicate Shape()
      reads this, entries
    {
      entries.Length == SIZE && count == |Names(entries[..])|
    }

    ghost predicate Valid()
      reads this, entries
    {
      Shape() && Inv(entries[..])
    }

    constructor ()
      ensures Valid() && fresh(entries) && entries[..] == Empty()
    {
      entries := new Option<Entry>[SIZE](_ => None);
      count := 0;
      new;
      assert entries[..] == Empty();
      EmptyInv();
    }

    /** Where the probing loop stops. */
    method Locate(hash: nat) returns (p: Probe)
      requires entries.Length == SIZE
      ensures p == Search(entries[..], hash)
    {
      var start := hash % SIZE;
      var i := 0;
      while i < SIZE
        invariant 0 <= i <= SIZE
        invariant Search(entries[..], hash, i) == Search(entries[..], hash)
      {
        var k := (start + i) % SIZE;
        if entries[k].None? {
          return Vacant(k);
        }
        if entries[k].value.hash == hash {
          return Hit(k);
        }
        i := i + 1;
      }
      p := Full;
    }

    /** Lookup by hash: the abstract map's entry, or a miss. */
    method Lookup(hash: nat) returns (r: Option<Entry>)
      requires Valid()
      ensures r == if hash in Contents(entries[..]) then Some(Contents(entries[..])[hash]) else None
    {
      LookupAgrees(entries[..], hash);
      if hash == 0 {
        return None;
      }
      var p := Locate(hash);
      r := match p case Hit(k) => entries[k] case _ => None;
    }

    /** Lookup for use: a hit's time becomes now and its name is copied out. */
    method LookupForUse(hash: nat, now: int) returns (name: Option<string>)
      requires Shape()
      modifies entries
      ensures Shape()
      ensures entries[..] == Touch(old(entries[..]), hash, now)
      ensures var e := old(Found(entries[..], hash));
        name == if e.Some? then Some(e.value.name) else None
    {
      if hash == 0 {
        return None;
      }
      ghost var t := entries[..];
      var p := Locate(hash);
      SearchSpec(t, hash, 0);
      if p.Hit? {
        var e := entries[p.index].value;
        NamesLength(t, p.index, e.(lastUsed := now));
        entries[p.index] := Some(e.(lastUsed := now));
        assert entries[..] == t[p.index := Some(e.(lastUsed := now))];
        name := Some(e.name);
      } else {
        name := None;
      }
    }

    /** Writes an entry into a slot and counts it when the slot was empty. */
    method Put(k: nat, e: Entry)
      requires Shape() && k < SIZE
      modifies this, entries
      ensures Shape() && entries[..] == old(entries[..])[k := Some(e)]
    {
      NamesLength(entries[..], k, e);
      if entries[k].None? {
        count := count + 1;
      }
      entries[k] := Some(e);
      assert entries[..] == old(entries[..])[k := Some(e)];
    }

    /** Adds or updates an entry; answers its index and the name evicted. */
    method AddEntry(e: Entry) returns (index: int, evicted: Option<string>)
      requires Shape()
      modifies this, entries
      ensures Shape()
      ensures entries[..] == Add(old(entries[..]), e).slots
      ensures index == Add(old(entries[..]), e).index
      ensures var victim := Add(old(entries[..]), e).evicted;
        evicted == if victim.Some? then Some(victim.value.name) else None
    {
      if e.hash == 0 {
        return -1, None;
      }
      ghost var t := entries[..];
      var start := e.hash % SIZE;
      var oldest: Option<nat> := None;
      var oldestTime := TIME_MAX;
      var i := 0;
      while i < SIZE
        invariant 0 <= i <= SIZE && entries[..] == t && count == old(count)
        invariant Search(t, e.hash, i) == Search(t, e.hash)
        invariant oldest == Oldest(t, e.hash, i) && oldestTime == TimeOf(t, oldest)
      {
        var k := (start + i) % SIZE;
        match entries[k] {
          case None =>
            Put(k, e);
            return k, None;
          case Some(entry) =>
            if entry.lastUsed < oldestTime {
              oldestTime := entry.lastUsed;
              oldest := Some(k);
            }
            if entry.hash == e.hash {
              Put(k, e);
              return k, None;
            }
        }
        i := i + 1;
      }
      // The table is full: evict the least recently used entry.
      if oldest.Some? {
        var k := oldest.value;
        evicted := Some(entries[k].value.name);
        Put(k, e);
        return k, evicted;
      }
      return -1, None;
    }

    /** Empties the table; answers the names it held, in slot order. */
    method Clear() returns (names: seq<string>)
      requires Shape()
      modifies this, entries
      ensures Shape() && entries[..] == Empty() && count == 0
      ensures names == Names(old(entries[..]))
    {
      ghost var t := entries[..];
      assert t[0..] == t;
      names := [];
      var i := 0;
      while i < SIZE
        invariant 0 <= i <= SIZE
        invariant forall k :: 0 <= k < i ==> entries[k] == None
        invariant forall k :: i <= k < SIZE ==> entries[k] == t[k]
        invariant names + Names(t[i..]) == Names(t)
      {
        hide Names, NameIn;
        NamesFrom(t, i);
        assert names + (NameIn(t[i]) + Names(t[i + 1..])) == names + NameIn(t[i]) + Names(t[i + 1..]);
        names := names + NameIn(entries[i]);
        entries[i] := None;
        i := i + 1;
      }
      count := 0;
      assert t[SIZE..] == [];
      assert entries[..] == Empty();
      NamesOfNone(entries[..]);
    }

    /** Any one operation on a valid cache: its effect is the model's step, so
        every run of the cache is a run of the model and stays valid. */
    method Perform(op: Op)
      requires Valid()
      modifies this, entries
      ensures Valid() && entries[..] == After(old(entries[..]), op)
    {
      StepKeepsInv(entries[..], op);
      match op
      case AddOp(e) => var _, _ := AddEntry(e);
      case LookupOp(h, now) => var _ := LookupForUse(h, now);
      case ClearOp => var _ := Clear();
    }
  }
}
