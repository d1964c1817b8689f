/** The ring of buffers a thread hands values out from. */
module ValueRing {
  import opened Common
  import opened Utf8

  datatype Ring = Ring(slots: seq<Bytes>, next: nat)

  const EmptyRing := Ring([], 0)

  /** `resize_with(count, Vec::new)` when there are fewer. */
  function Grown(slots: seq<Bytes>, count: nat): (r: seq<Bytes>)
    ensures |r| == Max(|slots|, count)
    ensures forall i :: 0 <= i < |slots| ==> r[i] == slots[i]
  {
    if |slots| < count then slots + seq(count - |slots|, _ => []) else slots
  }

  /** The ring after a call that leaves content in the next slot. */
  function Filled(ring: Ring, count: nat, content: Bytes): Ring
    requires count > 0
  {
    var i := ring.next % count;
    Ring(Grown(ring.slots, count)[i := content], (i + 1) % count)
  }

  function Zeros(n: nat): (r: Bytes)
    ensures |r| == n && forall i :: 0 <= i < n ==> r[i] == 0
  {
    seq(n, _ => 0)
  }

  class ValueRing {
    var slots: seq<Bytes>
    var next: nat

    function State(): Ring
      reads this
    {
      Ring(slots, next)
    }

    constructor ()
      ensures State() == EmptyRing
    {
      slots, next := [], 0;
    }

    /** The slot the bytes are in; its address is what a caller is given. */
    method Put(count: nat, bytes: Bytes) returns (i: nat)
      requires count > 0
      modifies this
      ensures i == old(next) % count && State() == Filled(old(State()), count, bytes + [0])
      ensures |slots[i]| == |bytes| + 1 && slots[i][..|bytes|] == bytes && slots[i][|bytes|] == 0
    {
      if |slots| < count {
        slots := slots + seq(count - |slots|, _ => []);
      }
      i := next % count;
      next := (i + 1) % count;
      slots := slots[i := []];
      slots := slots[i := slots[i] + bytes];
      slots := slots[i := slots[i] + [0]];
      assert [] + bytes + [0] == bytes + [0];
    }

    method Take(count: nat, capacity: nat) returns (i: nat)
      requires count > 0
      modifies this
      ensures i == old(next) % count && State() == Filled(old(State()), count, Zeros(capacity))
      ensures |slots[i]| == capacity && forall k :: 0 <= k < capacity ==> slots[i][k] == 0
    {
      if |slots| < count {
        slots := slots + seq(count - |slots|, _ => []);
      }
      i := next % count;
      next := (i + 1) % count;
      slots := slots[i := []];
      slots := slots[i := Zeros(capacity)];
    }
  }

  // ----- runs -----------------------------------------------------------

  /** A call made: its slot, and the text it put there, if it was a put. */
  datatype Call = Call(slot: nat, text: Option<Bytes>)

  datatype World = World(ring: Ring, calls: seq<Call>)

  /** A put, a take, or a caller writing into a slot it took. */
  datatype Op = Put(bytes: Bytes) | Take(capacity: nat) | Write(call: nat, bytes: Bytes)

  /** A caller writes only into what it took, within its capacity, and while
      fewer than count calls have followed. */
  predicate Legal(w: World, count: nat, op: Op) {
    op.Write? ==>
      && op.call < |w.calls| <= op.call + count
      && w.calls[op.call].text.None?
      && w.calls[op.call].slot < |w.ring.slots|
      && |op.bytes| == |w.ring.slots[w.calls[op.call].slot]|
  }

  function Do(w: World, count: nat, op: Op): World
    requires count > 0 && Legal(w, count, op)
  {
    match op
    case Put(bytes) =>
      World(Filled(w.ring, count, bytes + [0]), w.calls + [Call(w.ring.next % count, Some(bytes))])
    case Take(capacity) =>
      World(Filled(w.ring, count, Zeros(capacity)), w.calls + [Call(w.ring.next % count, None)])
    case Write(call, bytes) =>
      w.(ring := w.ring.(slots := w.ring.slots[w.calls[call].slot := bytes]))
  }

  /** The slot d places before p on a ring of count slots. */
  function Back(p: nat, d: nat, count: nat): int {
    if p >= d then p - d else p - d + count
  }

  /** The last count calls lie one behind the other before the next slot. */
  predicate InOrder(w: World, count: nat) {
    forall k :: 0 <= k < |w.calls| <= k + count ==>
      w.calls[k].slot == Back(w.ring.next, |w.calls| - k, count)
  }

  /** What the last count calls put is where they put it. */
  predicate Intact(w: World, count: nat) {
    forall k :: 0 <= k < |w.calls| <= k + count && w.calls[k].text.Some? ==>
      w.calls[k].slot < |w.ring.slots| && w.ring.slots[w.calls[k].slot] == w.calls[k].text.value + [0]
  }

  predicate Shape(w: World, count: nat) {
    && w.ring.next < count
    && (w.calls != [] ==> |w.ring.slots| >= count)
    && (forall k :: 0 <= k < |w.calls| ==> w.calls[k].slot < count)
  }

  predicate Inv(w: World, count: nat) {
    Shape(w, count) && InOrder(w, count) && Intact(w, count)
  }

  /** One place on. */
  lemma Onward(p: nat, count: nat)
    requires p < count
    ensures p % count == p
    ensures (p + 1) % count == if p + 1 == count then 0 else p + 1
  {
  }

  lemma CallInOrder(w: World, count: nat, text: Option<Bytes>, content: Bytes)
    requires count > 0 && Inv(w, count)
    ensures var after := World(Filled(w.ring, count, content), w.calls + [Call(w.ring.next % count, text)]);
      Shape(after, count) && InOrder(after, count)
  {
    Onward(w.ring.next, count);
  }

  /** The last count - 1 calls are not where the next one goes. */
  lemma NextIsFree(w: World, count: nat, k: nat)
    requires count > 0 && Shape(w, count) && InOrder(w, count) && k < |w.calls| < k + count
    ensures w.calls[k].slot != w.ring.next
  {
  }

  /** Once there have been count calls, the next one goes where the first of
      the last count is: a pointer is good until then and no longer. */
  lemma NextIsOldest(w: World, count: nat)
    requires count > 0 && Inv(w, count) && |w.calls| >= count
    ensures w.calls[|w.calls| - count].slot == w.ring.next % count
  {
    Onward(w.ring.next, count);
  }

  lemma CallIntact(w: World, count: nat, text: Option<Bytes>, content: Bytes)
    requires count > 0 && Inv(w, count)
    requires text.Some? ==> content == text.value + [0]
    ensures Intact(World(Filled(w.ring, count, content), w.calls + [Call(w.ring.next % count, text)]), count)
  {
    var after := World(Filled(w.ring, count, content), w.calls + [Call(w.ring.next % count, text)]);
    Onward(w.ring.next, count);
    forall k | 0 <= k < |after.calls| <= k + count && after.calls[k].text.Some?
      ensures after.calls[k].slot < |after.ring.slots|
      ensures after.ring.slots[after.calls[k].slot] == after.calls[k].text.value + [0]
    {
      if k < |w.calls| {
        NextIsFree(w, count, k);
      }
    }
  }

  /** The last count calls are in pairwise distinct slots. */
  lemma CallsApart(w: World, count: nat, j: nat, k: nat)
    requires count > 0 && Inv(w, count) && j < k < |w.calls| <= j + count
    ensures w.calls[j].slot != w.calls[k].slot
  {
  }

  lemma WriteIntact(w: World, count: nat, op: Op)
    requires count > 0 && Inv(w, count) && op.Write? && Legal(w, count, op)
    ensures Inv(Do(w, count, op), count)
  {
    var after := Do(w, count, op);
    forall k | 0 <= k < |w.calls| <= k + count && w.calls[k].text.Some?
      ensures after.ring.slots[w.calls[k].slot] == w.calls[k].text.value + [0]
    {
      if k < op.call {
        CallsApart(w, count, k, op.call);
      } else {
        CallsApart(w, count, op.call, k);
      }
    }
  }

  lemma StepKeepsInv(w: World, count: nat, op: Op)
    requires count > 0 && Inv(w, count) && Legal(w, count, op)
    ensures Inv(Do(w, count, op), count)
  {
    match op
    case Put(bytes) =>
      CallInOrder(w, count, Some(bytes), bytes + [0]);
      CallIntact(w, count, Some(bytes), bytes + [0]);
    case Take(capacity) =>
      CallInOrder(w, count, None, Zeros(capacity));
      CallIntact(w, count, None, Zeros(capacity));
    case Write(_, _) =>
      WriteIntact(w, count, op);
  }

  predicate LegalRun(w: World, count: nat, ops: seq<Op>)
    requires count > 0
    decreases ops
  {
    ops == [] || (Legal(w, count, ops[0]) && LegalRun(Do(w, count, ops[0]), count, ops[1..]))
  }

  function After(w: World, count: nat, ops: seq<Op>): World
    requires count > 0 && LegalRun(w, count, ops)
    decreases ops
  {
    if ops == [] then w else After(Do(w, count, ops[0]), count, ops[1..])
  }

  lemma {:induction false} RunKeepsInv(w: World, count: nat, ops: seq<Op>)
    requires count > 0 && Inv(w, count) && LegalRun(w, count, ops)
    ensures Inv(After(w, count, ops), count)
    decreases ops
  {
    if ops != [] {
      StepKeepsInv(w, count, ops[0]);
      RunKeepsInv(Do(w, count, ops[0]), count, ops[1..]);
    }
  }

  /** After every run on a fresh ring, what each of the last count calls put is
      still in its slot, NUL-terminated, and no two of them share one. */
  lemma LastCallsStand(count: nat, ops: seq<Op>)
    requires count > 0 && LegalRun(World(EmptyRing, []), count, ops)
    ensures var w := After(World(EmptyRing, []), count, ops);
      && (forall k :: 0 <= k < |w.calls| <= k + count && w.calls[k].text.Some? ==>
            w.calls[k].slot < |w.ring.slots| && w.ring.slots[w.calls[k].slot] == w.calls[k].text.value + [0])
      && (forall j, k :: 0 <= j < k < |w.calls| <= j + count ==> w.calls[j].slot != w.calls[k].slot)
  {
    var w := After(World(EmptyRing, []), count, ops);
    RunKeepsInv(World(EmptyRing, []), count, ops);
    forall j, k | 0 <= j < k < |w.calls| <= j + count
      ensures w.calls[j].slot != w.calls[k].slot
    {
      CallsApart(w, count, j, k);
    }
  }
}
