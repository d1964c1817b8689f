/** The numbering state machine of `dedup::number_placeholders`, token by
    token, and exactly when it numbers as SQLite does. */
module Numbering {
  import opened Common
  import opened SqliteParams

  /** A slot the pass fixes, with the name it is bound under. */
  datatype Slot = Slot(n: nat, name: Option<string>)

  /** How the pass writes a slot back: its number, and its name behind a colon. */
  function SlotText(s: Slot): string {
    "?" + Decimal(s.n) + if s.name.Some? then ":" + s.name.value else ""
  }

  datatype State = State(next: nat, names: map<string, nat>)

  const Start := State(1, map[])

  /** The slot the pass gives a token, None when it leaves the token alone. */
  function Assign(st: State, token: string): (Option<Slot>, State) {
    if token == "?" then
      (Some(Slot(st.next, None)), st.(next := st.next + 1))
    else if token != "" && (token[0] == '?' || token[0] == '$') && ParseUsize(token[1..]).Some? then
      var n := ParseUsize(token[1..]).value;
      (Some(Slot(n, None)), st.(next := Max(st.next, n + 1)))
    else if token != "" && IsSigil(token[0]) then
      var name := token[1..];
      if name in st.names then (Some(Slot(st.names[name], Some(name))), st)
      else (Some(Slot(st.next, Some(name))), State(st.next + 1, st.names[name := st.next]))
    else (None, st)
  }

  function Rewritten(st: State, token: string): string {
    var (slot, _) := Assign(st, token);
    if slot.Some? then SlotText(slot.value) else token
  }

  function Texts(st: State, ts: seq<string>): (r: seq<string>)
    ensures |r| == |ts|
    decreases ts
  {
    if ts == [] then [] else [Rewritten(st, ts[0])] + Texts(Assign(st, ts[0]).1, ts[1..])
  }

  function EndState(st: State, ts: seq<string>): State
    decreases ts
  {
    if ts == [] then st else EndState(Assign(st, ts[0]).1, ts[1..])
  }

  // ----- on tokens SQLite accepts ---------------------------------------

  /** `$NNN`: a name to SQLite, a slot number to the shim. */
  predicate Dollar(p: Param) {
    p.Name? && p.sigil == '$' && p.name != "" && AllDigits(p.name)
  }

  function DollarValue(p: Param): nat
    requires Dollar(p)
  {
    DigitsValue(p.name)
  }

  predicate DollarNumber(t: string) {
    |t| > 1 && t[0] == '$' && AllDigits(t[1..])
  }

  /** What a pass makes of a parameter.  A `$NNN` is its number in either pass;
      the dedup pass reserves the slot, the placeholders pass does not. */
  function AssignParam(reserves: bool, st: State, p: Param): (Slot, State) {
    match p
    case Ask => (Slot(st.next, None), st.(next := st.next + 1))
    case At(n) => (Slot(n, None), st.(next := Max(st.next, n + 1)))
    case Name(_, name) =>
      if Dollar(p) then
        (Slot(DollarValue(p), None), if reserves then st.(next := Max(st.next, DollarValue(p) + 1)) else st)
      else if name in st.names then (Slot(st.names[name], Some(name)), st)
      else (Slot(st.next, Some(name)), State(st.next + 1, st.names[name := st.next]))
  }

  lemma AssignReads(st: State, t: string)
    requires Token(t)
    ensures Assign(st, t) == (Some(AssignParam(true, st, Read(t)).0), AssignParam(true, st, Read(t)).1)
  {
    if t != "?" {
      var rest := t[1..];
      assert rest[0] == t[1] && rest[0] != '+' by {
        assert t[0] == '?' ==> IsDigit(rest[0]);
      }
    }
  }

  function PassSlots(reserves: bool, st: State, ps: seq<Param>): (r: seq<Slot>)
    ensures |r| == |ps|
    decreases ps
  {
    if ps == [] then []
    else [AssignParam(reserves, st, ps[0]).0] + PassSlots(reserves, AssignParam(reserves, st, ps[0]).1, ps[1..])
  }

  function SlotTexts(slots: seq<Slot>): (r: seq<string>)
    ensures |r| == |slots|
  {
    seq(|slots|, i requires 0 <= i < |slots| => SlotText(slots[i]))
  }

  lemma SlotTextsCons(s: Slot, rest: seq<Slot>)
    ensures SlotTexts([s] + rest) == [SlotText(s)] + SlotTexts(rest)
  {
  }

  lemma ReadAllTail(ts: seq<string>)
    requires AllTokens(ts) && ts != []
    ensures AllTokens(ts[1..]) && Token(ts[0])
    ensures ReadAll(ts) == [Read(ts[0])] + ReadAll(ts[1..])
  {
  }

  /** The texts the dedup pass leaves are the slots it fixed. */
  lemma {:induction false} TextsAreSlots(st: State, ts: seq<string>)
    requires AllTokens(ts)
    ensures Texts(st, ts) == SlotTexts(PassSlots(true, st, ReadAll(ts)))
    decreases ts
  {
    if ts != [] {
      ReadAllTail(ts);
      AssignReads(st, ts[0]);
      var (s, next) := AssignParam(true, st, Read(ts[0]));
      TextsAreSlots(next, ts[1..]);
      SlotTextsCons(s, PassSlots(true, next, ReadAll(ts[1..])));
    }
  }

  // ----- against SQLite -------------------------------------------------

  function Numbers(slots: seq<Slot>): (r: seq<nat>)
    ensures |r| == |slots|
  {
    seq(|slots|, i requires 0 <= i < |slots| => slots[i].n)
  }

  /** The names that are no `$NNN`. */
  function Proper(ps: set<Param>): set<Param> {
    set p | p in ps && p.Name? && !Dollar(p)
  }

  /** The largest slot a pass has reserved after one more parameter. */
  function NextReserved(reserves: bool, s: Params, r: nat, p: Param): nat {
    if Dollar(p) && !reserves then r else Max(r, Number(s, p).0)
  }

  /** A new `$NNN` comes when SQLite's next slot is NNN, and a parameter that
      takes a new slot when the slots reserved are all that SQLite gave out. */
  predicate InPlace(s: Params, r: nat, p: Param) {
    if Dollar(p) then p in s.names || DollarValue(p) == s.largest + 1
    else p.At? || p in s.names || r == s.largest
  }

  predicate AllInPlace(reserves: bool, s: Params, r: nat, ps: seq<Param>)
    decreases ps
  {
    ps == []
    || (InPlace(s, r, ps[0])
        && AllInPlace(reserves, Number(s, ps[0]).1, NextReserved(reserves, s, r, ps[0]), ps[1..]))
  }

  /** The pass and SQLite stand at the same point, and a pass that reserves has
      reserved all. */
  ghost predicate InStep(reserves: bool, s: Params, r: nat, st: State) {
    && st.next == r + 1 && r <= s.largest && (reserves ==> r == s.largest)
    && (forall b :: b in st.names ==> st.names[b] <= r)
    && Sane(s) && Known(s, st.names)
  }

  /** Each proper name SQLite knows is known by its bare text under the same
      slot, and each `$NNN` it knows is at its number. */
  ghost predicate Known(s: Params, names: map<string, nat>)
    requires Sane(s)
  {
    && OneSigilEach(Proper(s.names.Keys))
    && KnowsAll(s, names) && KnowsOnly(s, names)
    && (forall p :: p in s.names && Dollar(p) ==> s.names[p] == DollarValue(p))
  }

  ghost predicate KnowsAll(s: Params, names: map<string, nat>)
    requires Sane(s)
  {
    forall p :: p in s.names && !Dollar(p) ==> p.name in names && names[p.name] == s.names[p]
  }

  ghost predicate KnowsOnly(s: Params, names: map<string, nat>)
    requires Sane(s)
  {
    forall b :: b in names ==> exists p :: p in s.names && !Dollar(p) && p.name == b
  }

  /** The slot is SQLite's exactly when the parameter is in place and is no
      known name under another sigil, and then the two go on in step. */
  ghost predicate Agrees(reserves: bool, s: Params, r: nat, st: State, p: Param) {
    && (AssignParam(reserves, st, p).0.n == Number(s, p).0
        <==> InPlace(s, r, p) && OneSigilEach(Proper(s.names.Keys + {p})))
    && (AssignParam(reserves, st, p).0.n == Number(s, p).0 ==>
          InStep(reserves, Number(s, p).1, NextReserved(reserves, s, r, p), AssignParam(reserves, st, p).1))
  }

  lemma StepAgrees(reserves: bool, s: Params, r: nat, st: State, p: Param)
    requires InStep(reserves, s, r, st)
    ensures Agrees(reserves, s, r, st, p)
  {
    hide InStep, Agrees;
    if !p.Name? || p in s.names {
      OldAgrees(reserves, s, r, st, p);
    } else if Dollar(p) {
      NewDollarAgrees(reserves, s, r, st, p);
    } else {
      NewNameAgrees(reserves, s, r, st, p);
    }
  }

  lemma SameKnown(s: Params, s': Params, names: map<string, nat>)
    requires Sane(s) && Sane(s') && s'.names == s.names && Known(s, names)
    ensures Known(s', names)
  {
  }

  lemma SameProper(s: Params, p: Param)
    requires !p.Name? || p in s.names || Dollar(p)
    ensures Proper(s.names.Keys + {p}) == Proper(s.names.Keys)
  {
  }

  lemma KnownSlot(s: Params, names: map<string, nat>, p: Param)
    requires Sane(s) && Known(s, names) && p in s.names
    ensures Dollar(p) ==> s.names[p] == DollarValue(p)
    ensures !Dollar(p) ==> p.name in names && names[p.name] == s.names[p]
    ensures p.Name? && s.names[p] <= s.largest && OneSigilEach(Proper(s.names.Keys))
  {
  }

  /** A parameter that adds no name. */
  lemma OldAgrees(reserves: bool, s: Params, r: nat, st: State, p: Param)
    requires InStep(reserves, s, r, st) && (!p.Name? || p in s.names)
    ensures Agrees(reserves, s, r, st, p)
  {
    hide InStep, Agrees;
    if p.Name? {
      OldNameAgrees(reserves, s, r, st, p);
    } else {
      NumberAgrees(reserves, s, r, st, p);
    }
  }

  lemma NumberAgrees(reserves: bool, s: Params, r: nat, st: State, p: Param)
    requires InStep(reserves, s, r, st) && !p.Name?
    ensures Agrees(reserves, s, r, st, p)
  {
    SameProper(s, p);
    NumberSane(s, p);
    assert OneSigilEach(Proper(s.names.Keys));
    SameKnown(s, Number(s, p).1, st.names);
    hide Known, Proper, Sane, OneSigilEach;
  }

  lemma OldNameAgrees(reserves: bool, s: Params, r: nat, st: State, p: Param)
    requires InStep(reserves, s, r, st) && p in s.names
    ensures Agrees(reserves, s, r, st, p)
  {
    SameProper(s, p);
    NumberSane(s, p);
    KnownSlot(s, st.names, p);
    hide Known, Proper, DollarValue, Sane, OneSigilEach;
  }

  lemma NewDollarAgrees(reserves: bool, s: Params, r: nat, st: State, p: Param)
    requires InStep(reserves, s, r, st) && Dollar(p) && p !in s.names
    ensures Agrees(reserves, s, r, st, p)
  {
    SameProper(s, p);
    NumberSane(s, p);
    assert OneSigilEach(Proper(s.names.Keys));
    if DollarValue(p) == s.largest + 1 {
      DollarKnown(s, st.names, p);
    }
    hide Known, Proper, DollarValue, Sane;
  }

  lemma DollarKnown(s: Params, names: map<string, nat>, p: Param)
    requires Sane(s) && Known(s, names) && Dollar(p) && p !in s.names && DollarValue(p) == s.largest + 1
    requires Sane(Number(s, p).1)
    ensures Known(Number(s, p).1, names)
  {
    hide Sane, KnowsOnly, OneSigilEach, DollarValue;
    var s' := Number(s, p).1;
    DollarKnowsOnly(s, s', names, p);
    DollarProper(s, s', p);
  }

  lemma DollarProper(s: Params, s': Params, p: Param)
    requires Dollar(p) && s'.names.Keys == s.names.Keys + {p}
    ensures Proper(s'.names.Keys) == Proper(s.names.Keys)
  {
  }

  lemma DollarKnowsOnly(s: Params, s': Params, names: map<string, nat>, p: Param)
    requires Sane(s) && Sane(s') && KnowsOnly(s, names) && s'.names.Keys == s.names.Keys + {p}
    ensures KnowsOnly(s', names)
  {
    hide Dollar;
    forall b | b in names
      ensures exists q :: q in s'.names && !Dollar(q) && q.name == b
    {
      var q :| q in s.names && !Dollar(q) && q.name == b;
      assert q in s'.names;
    }
  }

  lemma NewNameAgrees(reserves: bool, s: Params, r: nat, st: State, p: Param)
    requires InStep(reserves, s, r, st) && p.Name? && !Dollar(p) && p !in s.names
    ensures Agrees(reserves, s, r, st, p)
  {
    hide Known, Proper, Sane, OneSigilEach;
    NumberSane(s, p);
    if p.name in st.names {
      TwoSigils(s, st.names, p);
    } else {
      NewNameKnown(s, st.names, p);
    }
  }

  lemma TwoSigils(s: Params, names: map<string, nat>, p: Param)
    requires Sane(s) && Known(s, names) && p.Name? && !Dollar(p) && p !in s.names && p.name in names
    ensures names[p.name] <= s.largest && !OneSigilEach(Proper(s.names.Keys + {p}))
  {
    var q :| q in s.names && !Dollar(q) && q.name == p.name;
    assert q in Proper(s.names.Keys + {p}) && p in Proper(s.names.Keys + {p});
  }

  lemma NewNameKnown(s: Params, names: map<string, nat>, p: Param)
    requires Sane(s) && Known(s, names) && p.Name? && !Dollar(p) && p !in s.names && p.name !in names
    requires Sane(Number(s, p).1)
    ensures OneSigilEach(Proper(s.names.Keys + {p}))
    ensures Known(Number(s, p).1, names[p.name := s.largest + 1])
  {
    hide Sane, KnowsAll, KnowsOnly, OneSigilEach, Proper;
    var s' := Number(s, p).1;
    UnusedName(s, names, p);
    KnowsOneMore(s, names, s', names[p.name := s.largest + 1], p);
    KnowsAllOneMore(s, names, s', p);
    assert s'.names.Keys == s.names.Keys + {p};
  }

  lemma KnowsOneMore(s: Params, names: map<string, nat>, s': Params, names': map<string, nat>, p: Param)
    requires Sane(s) && Sane(s') && KnowsOnly(s, names)
    requires p.Name? && !Dollar(p)
    requires s'.names.Keys == s.names.Keys + {p} && names'.Keys == names.Keys + {p.name}
    ensures KnowsOnly(s', names')
  {
    forall b | b in names'
      ensures exists q :: q in s'.names && !Dollar(q) && q.name == b
    {
      if b == p.name {
        assert p in s'.names;
      } else {
        var q :| q in s.names && !Dollar(q) && q.name == b;
        assert q in s'.names;
      }
    }
  }

  lemma UnusedName(s: Params, names: map<string, nat>, p: Param)
    requires Sane(s) && OneSigilEach(Proper(s.names.Keys)) && KnowsAll(s, names)
    requires p.Name? && p.name !in names
    ensures OneSigilEach(Proper(s.names.Keys + {p}))
  {
    forall q | q in s.names && !Dollar(q)
      ensures q.name != p.name
    {
      assert q.name in names;
    }
    assert forall q :: q in Proper(s.names.Keys + {p}) && q != p ==> q in Proper(s.names.Keys) && q in s.names;
  }

  lemma KnowsAllOneMore(s: Params, names: map<string, nat>, s': Params, p: Param)
    requires Sane(s) && KnowsAll(s, names) && p.Name? && p.name !in names
    requires Sane(s') && s'.names == s.names[p := s.largest + 1]
    ensures KnowsAll(s', names[p.name := s.largest + 1])
  {
    var names' := names[p.name := s.largest + 1];
    forall q | q in s'.names && !Dollar(q)
      ensures q.name in names' && names'[q.name] == s'.names[q]
    {
      if q != p {
        assert q in s.names;
      }
    }
  }

  /** The names known after the head and those to come are the same names. */
  lemma OneMoreName(s: Params, ps: seq<Param>)
    requires ps != [] && Sane(s)
    ensures Number(s, ps[0]).1.names.Keys + NamesIn(ps[1..]) == s.names.Keys + NamesIn(ps)
    ensures Proper(s.names.Keys + {ps[0]}) <= Proper(s.names.Keys + NamesIn(ps))
  {
    NamesInCons(ps);
    NumberSane(s, ps[0]);
  }

  lemma Smaller(small: set<Param>, big: set<Param>)
    requires small <= big && OneSigilEach(big)
    ensures OneSigilEach(small)
  {
  }

  /** From any point in step, the slots are SQLite's exactly when every
      parameter is in place and no proper name stands under two sigils. */
  lemma {:induction false} NumberingAgrees(reserves: bool, s: Params, r: nat, st: State, ps: seq<Param>)
    requires InStep(reserves, s, r, st)
    ensures Numbers(PassSlots(reserves, st, ps)) == Slots(s, ps)
      <==> AllInPlace(reserves, s, r, ps) && OneSigilEach(Proper(s.names.Keys + NamesIn(ps)))
    decreases ps
  {
    if ps == [] {
      assert s.names.Keys + NamesIn(ps) == s.names.Keys;
    } else {
      var slots := PassSlots(reserves, st, ps);
      SplitEqual(Numbers(slots), Slots(s, ps));
      assert Numbers(slots)[1..] == Numbers(slots[1..]);
      StepAgrees(reserves, s, r, st, ps[0]);
      OneMoreName(s, ps);
      if AssignParam(reserves, st, ps[0]).0.n == Number(s, ps[0]).0 {
        NumberingAgrees(reserves, Number(s, ps[0]).1, NextReserved(reserves, s, r, ps[0]),
                        AssignParam(reserves, st, ps[0]).1, ps[1..]);
      } else if OneSigilEach(Proper(s.names.Keys + NamesIn(ps))) {
        Smaller(Proper(s.names.Keys + {ps[0]}), Proper(s.names.Keys + NamesIn(ps)));
      }
    }
  }

  /** What it takes for a pass to number a statement's parameters as SQLite
      does. */
  ghost predicate Sound(reserves: bool, ps: seq<Param>) {
    AllInPlace(reserves, NoParams, 0, ps) && OneSigilEach(Proper(NamesIn(ps)))
  }

  /** A pass gives every placeholder of a statement SQLite's slot exactly when
      no name but a `$NNN` appears under two sigils and every parameter is in
      place. */
  lemma NumberingIsSqlites(reserves: bool, ts: seq<string>)
    requires AllTokens(ts)
    ensures Numbers(PassSlots(reserves, Start, ReadAll(ts))) == Slots(NoParams, ReadAll(ts))
      <==> Sound(reserves, ReadAll(ts))
  {
    var ps := ReadAll(ts);
    assert NoParams.names.Keys + NamesIn(ps) == NamesIn(ps);
    assert Proper({}) == {};
    NumberingAgrees(reserves, NoParams, 0, Start, ps);
  }

  /** Each `$NNN` is first met when SQLite's next slot is NNN. */
  predicate DollarsInPlace(s: Params, ps: seq<Param>)
    decreases ps
  {
    ps == []
    || ((Dollar(ps[0]) && ps[0] !in s.names ==> DollarValue(ps[0]) == s.largest + 1)
        && DollarsInPlace(Number(s, ps[0]).1, ps[1..]))
  }

  /** For the dedup pass, which reserves every slot, only `$NNN` can be out of
      place. */
  lemma {:induction false} ReservingInPlace(s: Params, ps: seq<Param>)
    requires Sane(s)
    ensures AllInPlace(true, s, s.largest, ps) <==> DollarsInPlace(s, ps)
    decreases ps
  {
    if ps != [] {
      NumberSane(s, ps[0]);
      assert NextReserved(true, s, s.largest, ps[0]) == Number(s, ps[0]).1.largest;
      ReservingInPlace(Number(s, ps[0]).1, ps[1..]);
    }
  }

  /** And where there is none, the two passes ask the same: one sigil for each
      name. */
  lemma {:induction false} WithoutDollars(reserves: bool, s: Params, ps: seq<Param>)
    requires Sane(s) && forall i :: 0 <= i < |ps| ==> !Dollar(ps[i])
    ensures AllInPlace(reserves, s, s.largest, ps)
    ensures PassSlots(true, Start, ps) == PassSlots(false, Start, ps)
    decreases ps
  {
    SamePasses(Start, ps);
    if ps != [] {
      NumberSane(s, ps[0]);
      assert NextReserved(reserves, s, s.largest, ps[0]) == Number(s, ps[0]).1.largest;
      WithoutDollars(reserves, Number(s, ps[0]).1, ps[1..]);
    }
  }

  lemma {:induction false} SamePasses(st: State, ps: seq<Param>)
    requires forall i :: 0 <= i < |ps| ==> !Dollar(ps[i])
    ensures PassSlots(true, st, ps) == PassSlots(false, st, ps)
    decreases ps
  {
    if ps != [] {
      SamePasses(AssignParam(true, st, ps[0]).1, ps[1..]);
    }
  }

  // ----- with the names -------------------------------------------------

  /** The name a pass records: none for a `$NNN`. */
  function NameOf(p: Param): Option<string> {
    if p.Name? && !Dollar(p) then Some(p.name) else None
  }

  /** SQLite's slot for the next parameter, with that name. */
  function SlotFor(s: Params, p: Param): Slot {
    Slot(Number(s, p).0, NameOf(p))
  }

  function SlotsFor(s: Params, ps: seq<Param>): (r: seq<Slot>)
    ensures |r| == |ps|
    decreases ps
  {
    if ps == [] then [] else [SlotFor(s, ps[0])] + SlotsFor(Number(s, ps[0]).1, ps[1..])
  }

  /** A pass that agrees with SQLite on the numbers agrees on the slots. */
  lemma {:induction false} NumbersAsSqlite(reserves: bool, s: Params, st: State, ps: seq<Param>)
    requires Numbers(PassSlots(reserves, st, ps)) == Slots(s, ps)
    ensures PassSlots(reserves, st, ps) == SlotsFor(s, ps)
    decreases ps
  {
    if ps != [] {
      var slots := PassSlots(reserves, st, ps);
      SplitEqual(Numbers(slots), Slots(s, ps));
      assert Numbers(slots)[1..] == Numbers(slots[1..]);
      NumbersAsSqlite(reserves, Number(s, ps[0]).1, AssignParam(reserves, st, ps[0]).1, ps[1..]);
    }
  }

  lemma SplitEqual<T>(a: seq<T>, b: seq<T>)
    requires |a| == |b| > 0
    ensures a == b <==> a[0] == b[0] && a[1..] == b[1..]
  {
    if a[0] == b[0] && a[1..] == b[1..] {
      assert a == [a[0]] + a[1..];
      assert b == [b[0]] + b[1..];
    }
  }
}
