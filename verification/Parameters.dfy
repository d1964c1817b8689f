/** What the two passes together leave of a statement's parameters: the slot
    of every placeholder and the name recorded for every slot. */
module Parameters {
  import opened Common
  import opened SqliteParams
  import opened Numbering
  import P = Placeholders

  // ----- the placeholders pass on untouched tokens ----------------------

  /** The placeholders pass stands where the dedup pass would, and its names
      are where its slots say. */
  ghost predicate SameState(st: State, names: P.Names) {
    && st.next == |names.paramNames| + 1 && st.names == names.slots
    && (forall x :: x in st.names ==>
          1 <= st.names[x] <= |names.paramNames| && names.paramNames[st.names[x] - 1] == Some(x))
  }

  /** The names after one more slot. */
  function Extend(names: seq<Option<string>>, s: Slot): seq<Option<string>>
    requires s.n >= 1
  {
    var padded := P.Pad(names, s.n);
    if s.name.Some? then padded[s.n - 1 := s.name] else padded
  }

  function ExtendAll(names: seq<Option<string>>, slots: seq<Slot>): seq<Option<string>>
    requires AllFixed(slots)
    decreases slots
  {
    if slots == [] then names else ExtendAll(Extend(names, slots[0]), slots[1..])
  }

  predicate AllFixed(slots: seq<Slot>) {
    forall i :: 0 <= i < |slots| ==> P.Fixed(slots[i])
  }

  lemma NumberedRead(names: P.Names, t: string)
    requires Token(t) && t != "?" && t[0] == '?'
    ensures P.SlotOf(names, t) == (Some(Read(t).n), P.Explicit(names, Read(t).n, None))
  {
    var digits := t[1..];
    assert ':' !in digits by {
      assert forall c :: c in digits ==> IsDigit(c);
    }
    P.SplitColonAt(digits, "");
    assert IsDigit(digits[0]);
  }

  lemma NameRead(names: P.Names, t: string)
    requires Token(t) && !DollarNumber(t) && Read(t).Name?
    ensures var x := Read(t).name;
      P.SlotOf(names, t) ==
      if x in names.slots then (Some(names.slots[x]), names)
      else (Some(|names.paramNames| + 1),
            P.Names(names.paramNames + [Some(x)], names.slots[x := |names.paramNames| + 1]))
  {
  }

  /** A `$NNN` is left as written and reserves nothing. */
  lemma DollarRead(names: P.Names, t: string)
    requires DollarNumber(t)
    ensures Token(t) && Dollar(Read(t)) && DollarValue(Read(t)) == DigitsValue(t[1..])
    ensures P.SlotOf(names, t) == (None, names)
  {
    assert IsDigit(t[1..][0]);
  }

  lemma RawAsk(st: State, names: P.Names)
    requires SameState(st, names)
    ensures P.SlotOf(names, "?").1.paramNames == Extend(names.paramNames, Slot(st.next, None))
    ensures SameState(AssignParam(false, st, Ask).1, P.SlotOf(names, "?").1)
  {
  }

  lemma RawAt(st: State, names: P.Names, n: nat)
    requires SameState(st, names) && n >= 1
    ensures P.Explicit(names, n, None).paramNames == Extend(names.paramNames, Slot(n, None))
    ensures SameState(AssignParam(false, st, At(n)).1, P.Explicit(names, n, None))
  {
  }

  lemma RawKnownName(st: State, names: P.Names, x: string)
    requires SameState(st, names) && x in st.names
    ensures names.paramNames == Extend(names.paramNames, Slot(st.names[x], Some(x)))
  {
  }

  lemma RawNewName(st: State, names: P.Names, x: string)
    requires SameState(st, names) && x !in st.names
    ensures names.paramNames + [Some(x)] == Extend(names.paramNames, Slot(st.next, Some(x)))
    ensures SameState(State(st.next + 1, st.names[x := st.next]),
                      P.Names(names.paramNames + [Some(x)], names.slots[x := st.next]))
  {
  }

  /** On a token other than `$NNN`. */
  lemma RawStep(st: State, names: P.Names, t: string)
    requires Token(t) && !DollarNumber(t) && SameState(st, names)
    ensures !Dollar(Read(t)) && P.Fixed(AssignParam(false, st, Read(t)).0)
    ensures P.SlotOf(names, t).0 == Some(AssignParam(false, st, Read(t)).0.n)
    ensures P.SlotOf(names, t).1.paramNames == Extend(names.paramNames, AssignParam(false, st, Read(t)).0)
    ensures SameState(AssignParam(false, st, Read(t)).1, P.SlotOf(names, t).1)
  {
    match Read(t)
    case Ask =>
      RawAsk(st, names);
    case At(n) =>
      NumberedRead(names, t);
      RawAt(st, names, n);
    case Name(_, x) =>
      NameRead(names, t);
      if x in st.names {
        RawKnownName(st, names, x);
      } else {
        RawNewName(st, names, x);
      }
  }

  function Dollars(slots: seq<Slot>): (r: seq<string>)
    ensures |r| == |slots|
  {
    seq(|slots|, i requires 0 <= i < |slots| => P.Dollar(slots[i].n))
  }

  lemma DollarsCons(s: Slot, rest: seq<Slot>)
    ensures Dollars([s] + rest) == [P.Dollar(s.n)] + Dollars(rest)
  {
  }

  lemma ExtendCons(names: seq<Option<string>>, s: Slot, rest: seq<Slot>)
    requires P.Fixed(s) && AllFixed(rest)
    ensures AllFixed([s] + rest)
    ensures ExtendAll(names, [s] + rest) == ExtendAll(Extend(names, s), rest)
  {
    assert ([s] + rest)[1..] == rest;
  }

  /** How PostgreSQL reads a token: `$NNN` by its number, leading zeros or
      not. */
  function Canonical(t: string): string {
    if DollarNumber(t) then P.Dollar(DigitsValue(t[1..])) else t
  }

  function AllCanonical(ts: seq<string>): (r: seq<string>)
    ensures |r| == |ts|
  {
    seq(|ts|, i requires 0 <= i < |ts| => Canonical(ts[i]))
  }

  lemma DollarCanonical(n: nat)
    ensures Canonical(P.Dollar(n)) == P.Dollar(n)
  {
    assert P.Dollar(n)[1..] == Decimal(n);
  }

  lemma CanonicalCons(t: string, rest: seq<string>)
    ensures AllCanonical([t] + rest) == [Canonical(t)] + AllCanonical(rest)
  {
  }

  /** The slots a pass records in its list of names: all of them, or all but
      those of a `$NNN`. */
  function Recorded(reserves: bool, slots: seq<Slot>, ps: seq<Param>): seq<Slot>
    requires |slots| == |ps|
  {
    if ps == [] then []
    else (if Dollar(ps[0]) && !reserves then [] else [slots[0]]) + Recorded(reserves, slots[1..], ps[1..])
  }

  lemma RecordedCons(reserves: bool, s: Slot, slots: seq<Slot>, p: Param, ps: seq<Param>)
    requires |slots| == |ps|
    ensures Recorded(reserves, [s] + slots, [p] + ps)
         == (if Dollar(p) && !reserves then [] else [s]) + Recorded(reserves, slots, ps)
  {
    assert ([s] + slots)[1..] == slots && ([p] + ps)[1..] == ps;
  }

  lemma {:induction false} RecordsAll(slots: seq<Slot>, ps: seq<Param>)
    requires |slots| == |ps|
    ensures Recorded(true, slots, ps) == slots
  {
    if ps != [] {
      RecordsAll(slots[1..], ps[1..]);
    }
  }

  lemma RawHead(st: State, names: P.Names, t: string)
    requires Token(t) && SameState(st, names)
    ensures var (s, next) := AssignParam(false, st, Read(t));
      && Canonical(P.Rewritten(names, t)) == P.Dollar(s.n)
      && SameState(next, P.SlotOf(names, t).1)
      && (Dollar(Read(t)) ==> P.SlotOf(names, t).1 == names)
      && (!Dollar(Read(t)) ==>
            P.Fixed(s) && P.SlotOf(names, t).1.paramNames == Extend(names.paramNames, s))
  {
    if DollarNumber(t) {
      DollarRead(names, t);
    } else {
      RawStep(st, names, t);
      DollarCanonical(AssignParam(false, st, Read(t)).0.n);
    }
  }

  /** Untouched tokens come out, as PostgreSQL reads them, as the slots of a
      pass that reserves nothing for a `$NNN`. */
  lemma {:induction false} RawRun(st: State, names: P.Names, ts: seq<string>)
    requires AllTokens(ts) && SameState(st, names)
    ensures var ps := ReadAll(ts);
      var slots := PassSlots(false, st, ps);
      && AllCanonical(P.Texts(names, ts)) == Dollars(slots)
      && AllFixed(Recorded(false, slots, ps))
      && P.EndNames(names, ts).paramNames == ExtendAll(names.paramNames, Recorded(false, slots, ps))
    decreases ts
  {
    if ts != [] {
      ReadAllTail(ts);
      RawHead(st, names, ts[0]);
      var p, ps := Read(ts[0]), ReadAll(ts[1..]);
      var (s, next) := AssignParam(false, st, p);
      var rest, after := PassSlots(false, next, ps), P.SlotOf(names, ts[0]).1;
      RawRun(next, after, ts[1..]);
      hide SameState, Extend, P.SlotOf, AssignParam, Dollar;
      RawCons(names, ts);
      assert PassSlots(false, st, [p] + ps) == [s] + rest by { PassCons(st, p, ps); }
      DollarsCons(s, rest);
      CanonicalCons(P.Rewritten(names, ts[0]), P.Texts(after, ts[1..]));
      RecordedCons(false, s, rest, p, ps);
      if Dollar(p) {
        assert [] + Recorded(false, rest, ps) == Recorded(false, rest, ps);
      } else {
        ExtendCons(names.paramNames, s, Recorded(false, rest, ps));
      }
    }
  }

  lemma RawCons(names: P.Names, ts: seq<string>)
    requires ts != []
    ensures P.Texts(names, ts) == [P.Rewritten(names, ts[0])] + P.Texts(P.SlotOf(names, ts[0]).1, ts[1..])
    ensures P.EndNames(names, ts) == P.EndNames(P.SlotOf(names, ts[0]).1, ts[1..])
  {
  }

  lemma PassCons(st: State, p: Param, ps: seq<Param>)
    ensures PassSlots(false, st, [p] + ps)
         == [AssignParam(false, st, p).0] + PassSlots(false, AssignParam(false, st, p).1, ps)
  {
    assert ([p] + ps)[1..] == ps;
  }

  // ----- and on slots already fixed -------------------------------------

  /** Slot zero, which only `$0` asks for, has no placeholder in PostgreSQL. */
  predicate Placeable(s: Slot) {
    P.Fixed(s) || s == Slot(0, None)
  }

  function PlacedText(s: Slot): string {
    if s.n == 0 then SlotText(s) else P.Dollar(s.n)
  }

  function PlacedTexts(slots: seq<Slot>): (r: seq<string>)
    ensures |r| == |slots|
  {
    seq(|slots|, i requires 0 <= i < |slots| => PlacedText(slots[i]))
  }

  predicate AllPlaceable(slots: seq<Slot>) {
    forall i :: 0 <= i < |slots| ==> Placeable(slots[i])
  }

  lemma ZeroLeft(names: P.Names)
    ensures P.SlotOf(names, SlotText(Slot(0, None))) == (None, names)
  {
    var digits := Decimal(0);
    ParseDecimal(0);
    assert SlotText(Slot(0, None))[1..] == digits;
    assert ':' !in digits by {
      assert forall c :: c in digits ==> IsDigit(c);
    }
    P.SplitColonAt(digits, "");
  }

  lemma FixedHead(names: P.Names, s: Slot)
    requires Placeable(s)
    ensures P.Rewritten(names, SlotText(s)) == PlacedText(s)
  {
    if s.n == 0 {
      ZeroLeft(names);
    } else {
      P.ReadsBack(names, s);
    }
    hide P.SlotOf, SlotText;
  }

  lemma PlacedCons(s: Slot, rest: seq<Slot>)
    ensures PlacedTexts([s] + rest) == [PlacedText(s)] + PlacedTexts(rest)
  {
  }

  lemma {:induction false} FixedTexts(names: P.Names, slots: seq<Slot>)
    requires AllPlaceable(slots)
    ensures P.Texts(names, SlotTexts(slots)) == PlacedTexts(slots)
    decreases slots
  {
    hide P.SlotOf, P.Rewritten, SlotText, PlacedText, Placeable;
    if slots != [] {
      var s, rest := slots[0], slots[1..];
      assert slots == [s] + rest;
      SlotTextsCons(s, rest);
      FixedHead(names, s);
      FixedTexts(P.SlotOf(names, SlotText(s)).1, rest);
      PlacedCons(s, rest);
    }
  }

  /** The slots of the dedup pass are placeable. */
  lemma {:induction false} PassPlaceable(reserves: bool, st: State, ts: seq<string>)
    requires AllTokens(ts) && st.next >= 1 && forall b :: b in st.names ==> st.names[b] >= 1
    ensures AllPlaceable(PassSlots(reserves, st, ReadAll(ts)))
    decreases ts
  {
    if ts != [] {
      ReadAllTail(ts);
      var (s, next) := AssignParam(reserves, st, Read(ts[0]));
      assert Placeable(s);
      PassPlaceable(reserves, next, ts[1..]);
    }
  }

  /** Tokens whose slot is fixed come out as that slot, in any order. */
  lemma {:induction false} FixedRun(names: P.Names, slots: seq<Slot>)
    requires AllFixed(slots)
    ensures P.Texts(names, SlotTexts(slots)) == Dollars(slots)
    ensures P.EndNames(names, SlotTexts(slots)).paramNames == ExtendAll(names.paramNames, slots)
    decreases slots
  {
    if slots != [] {
      var s, rest := slots[0], slots[1..];
      assert slots == [s] + rest;
      P.ReadsBack(names, s);
      SlotTextsCons(s, rest);
      FixedRun(P.Explicit(names, s.n, s.name), rest);
      DollarsCons(s, rest);
      ExtendCons(names.paramNames, s, rest);
    }
  }

  // ----- the names a set of slots leaves --------------------------------

  /** One name at most for a slot number. */
  predicate Consistent(slots: set<Slot>) {
    forall a, b :: a in slots && b in slots && a.n == b.n && a.name.Some? && b.name.Some? ==> a == b
  }

  /** The names are those of the slots, no more and no fewer, and the list
      ends at the largest slot. */
  ghost predicate Describes(names: seq<Option<string>>, slots: set<Slot>) {
    && (forall s :: s in slots ==> 1 <= s.n <= |names| && (s.name.Some? ==> names[s.n - 1] == s.name))
    && (forall i :: 0 <= i < |names| && names[i].Some? ==> Slot(i + 1, names[i]) in slots)
    && (names != [] ==> exists s :: s in slots && s.n == |names|)
  }

  lemma DescribesOneMore(names: seq<Option<string>>, slots: set<Slot>, s: Slot)
    requires Describes(names, slots) && P.Fixed(s) && Consistent(slots + {s})
    ensures Describes(Extend(names, s), slots + {s})
  {
    var after := Extend(names, s);
    var more := slots + {s};
    assert s in more;
    forall x | x in more
      ensures 1 <= x.n <= |after| && (x.name.Some? ==> after[x.n - 1] == x.name)
    {
      if x.name.Some? && s.name.Some? && x.n == s.n {
        assert x == s;
      }
    }
    forall i | 0 <= i < |after| && after[i].Some?
      ensures Slot(i + 1, after[i]) in more
    {
      if s.name.Some? && i == s.n - 1 {
        assert Slot(i + 1, after[i]) == s;
      } else {
        assert after[i] == names[i];
      }
    }
    if |after| == |names| && names != [] {
      var x :| x in slots && x.n == |names|;
      assert x in more;
    }
  }

  function Range(slots: seq<Slot>): set<Slot> {
    set i | 0 <= i < |slots| :: slots[i]
  }

  lemma RangeCons(slots: seq<Slot>)
    requires slots != []
    ensures Range(slots) == {slots[0]} + Range(slots[1..])
  {
    forall x | x in Range(slots)
      ensures x in {slots[0]} + Range(slots[1..])
    {
      var i :| 0 <= i < |slots| && slots[i] == x;
      if i > 0 {
        assert slots[1..][i - 1] == x;
      }
    }
    forall x | x in Range(slots[1..])
      ensures x in Range(slots)
    {
      var i :| 0 <= i < |slots[1..]| && slots[1..][i] == x;
      assert slots[i + 1] == x;
    }
    assert slots[0] in Range(slots);
  }

  lemma ConsistentSubset(small: set<Slot>, big: set<Slot>)
    requires small <= big && Consistent(big)
    ensures Consistent(small)
  {
  }

  /** The names a list of slots leaves are those of its set of slots. */
  lemma {:induction false} DescribesAll(names: seq<Option<string>>, slots: seq<Slot>, before: set<Slot>)
    requires AllFixed(slots) && Consistent(before + Range(slots)) && Describes(names, before)
    ensures Describes(ExtendAll(names, slots), before + Range(slots))
    decreases slots
  {
    if slots == [] {
      assert before + Range(slots) == before;
    } else {
      RangeCons(slots);
      assert before + {slots[0]} + Range(slots[1..]) == before + Range(slots);
      ConsistentSubset(before + {slots[0]}, before + Range(slots));
      DescribesOneMore(names, before, slots[0]);
      DescribesAll(Extend(names, slots[0]), slots[1..], before + {slots[0]});
    }
  }

  // ----- SQLite's names ---------------------------------------------------

  /** The parameter names of SQLite's numbering, sigils dropped: one entry for
      each of the first r slots, a name exactly where SQLite has one that is no
      `$NNN`. */
  ghost predicate NamesOf(names: seq<Option<string>>, s: Params, r: nat)
    requires Sane(s)
  {
    && |names| == r
    && (forall p :: p in s.names && !Dollar(p) ==> s.names[p] <= r && names[s.names[p] - 1] == Some(p.name))
    && (forall i :: 0 <= i < |names| && names[i].Some? ==>
          exists p :: p in s.names && !Dollar(p) && s.names[p] == i + 1)
  }

  /** The slots account for SQLite's numbering so far, r the largest of them. */
  ghost predicate Accounts(slots: set<Slot>, s: Params, r: nat) {
    && Sane(s)
    && (forall x :: x in slots ==> 1 <= x.n <= r)
    && (r > 0 ==> exists x :: x in slots && x.n == r)
    && (forall p :: p in s.names && !Dollar(p) ==> Slot(s.names[p], Some(p.name)) in slots)
    && Backed(slots, s)
  }

  ghost predicate Backed(slots: set<Slot>, s: Params)
    requires Sane(s)
  {
    forall x :: x in slots && x.name.Some? ==>
      exists p :: p in s.names && !Dollar(p) && p.name == x.name.value && s.names[p] == x.n
  }

  lemma AccountsConsistent(slots: set<Slot>, s: Params, r: nat)
    requires Accounts(slots, s, r)
    ensures Consistent(slots)
  {
    forall a, b | a in slots && b in slots && a.n == b.n && a.name.Some? && b.name.Some?
      ensures a == b
    {
      var p :| p in s.names && !Dollar(p) && p.name == a.name.value && s.names[p] == a.n;
      var q :| q in s.names && !Dollar(q) && q.name == b.name.value && s.names[q] == b.n;
      assert p == q;
    }
  }

  lemma AccountsNames(names: seq<Option<string>>, slots: set<Slot>, s: Params, r: nat)
    requires Describes(names, slots) && Accounts(slots, s, r)
    ensures NamesOf(names, s, r)
  {
    if r > 0 {
      var x :| x in slots && x.n == r;
    }
    if names != [] {
      var x :| x in slots && x.n == |names|;
    }
    assert |names| == r;
    forall p | p in s.names && !Dollar(p)
      ensures s.names[p] <= r && names[s.names[p] - 1] == Some(p.name)
    {
      assert Slot(s.names[p], Some(p.name)) in slots;
    }
    forall i | 0 <= i < |names| && names[i].Some?
      ensures exists p :: p in s.names && !Dollar(p) && s.names[p] == i + 1
    {
      assert Slot(i + 1, names[i]) in slots;
    }
  }

  lemma BackedOneMore(slots: set<Slot>, s: Params, p: Param)
    requires Sane(s) && Sane(Number(s, p).1) && Backed(slots, s)
    ensures Backed(slots + {SlotFor(s, p)}, Number(s, p).1)
  {
    var s' := Number(s, p).1;
    forall y | y in slots + {SlotFor(s, p)} && y.name.Some?
      ensures exists q :: q in s'.names && !Dollar(q) && q.name == y.name.value && s'.names[q] == y.n
    {
      if y in slots {
        var q :| q in s.names && !Dollar(q) && q.name == y.name.value && s.names[q] == y.n;
        assert q in s'.names;
      } else {
        assert p in s'.names;
      }
    }
  }

  lemma BackedStill(slots: set<Slot>, s: Params, p: Param)
    requires Sane(s) && Sane(Number(s, p).1) && Backed(slots, s)
    ensures Backed(slots, Number(s, p).1)
  {
    BackedOneMore(slots, s, p);
  }

  lemma TopOneMore(slots: set<Slot>, r: nat, x: Slot)
    requires r > 0 ==> exists y :: y in slots && y.n == r
    ensures Max(r, x.n) > 0 ==> exists y :: y in slots + {x} && y.n == Max(r, x.n)
  {
    assert x in slots + {x};
    if Max(r, x.n) == r && r > 0 {
      var y :| y in slots && y.n == r;
      assert y in slots + {x};
    }
  }

  lemma AccountsStep(slots: set<Slot>, s: Params, r: nat, p: Param)
    requires Accounts(slots, s, r) && (p.At? ==> p.n >= 1)
    ensures Accounts(slots + {SlotFor(s, p)}, Number(s, p).1, Max(r, Number(s, p).0))
  {
    NumberSane(s, p);
    BackedOneMore(slots, s, p);
    TopOneMore(slots, r, SlotFor(s, p));
    hide Backed;
  }

  /** A `$NNN` that reserves nothing leaves the slots as they are. */
  lemma AccountsSkip(slots: set<Slot>, s: Params, r: nat, p: Param)
    requires Accounts(slots, s, r) && Dollar(p)
    ensures Accounts(slots, Number(s, p).1, r)
  {
    NumberSane(s, p);
    BackedStill(slots, s, p);
    hide Backed;
  }

  predicate Positive(ps: seq<Param>) {
    forall i :: 0 <= i < |ps| && ps[i].At? ==> ps[i].n >= 1
  }

  /** The largest slot a pass reserves over a run. */
  function Reserved(reserves: bool, s: Params, r: nat, ps: seq<Param>): nat
    decreases ps
  {
    if ps == [] then r
    else Reserved(reserves, Number(s, ps[0]).1, NextReserved(reserves, s, r, ps[0]), ps[1..])
  }

  /** Some parameter the pass reserves a slot for has this one. */
  ghost predicate Holds(reserves: bool, s: Params, ps: seq<Param>, n: nat) {
    exists i :: 0 <= i < |ps| && (reserves || !Dollar(ps[i])) && Slots(s, ps)[i] == n
  }

  lemma HoldsCons(reserves: bool, s: Params, ps: seq<Param>, n: nat)
    requires ps != []
    ensures Holds(reserves, s, ps, n)
      <==> ((reserves || !Dollar(ps[0])) && Number(s, ps[0]).0 == n) || Holds(reserves, Number(s, ps[0]).1, ps[1..], n)
  {
    var slots, rest := Slots(s, ps), Slots(Number(s, ps[0]).1, ps[1..]);
    assert slots[0] == Number(s, ps[0]).0;
    if Holds(reserves, Number(s, ps[0]).1, ps[1..], n) {
      var i :| 0 <= i < |ps[1..]| && (reserves || !Dollar(ps[1..][i])) && rest[i] == n;
      assert ps[i + 1] == ps[1..][i] && slots[i + 1] == n;
    }
    if Holds(reserves, s, ps, n) {
      var i :| 0 <= i < |ps| && (reserves || !Dollar(ps[i])) && slots[i] == n;
      assert i > 0 ==> ps[1..][i - 1] == ps[i] && rest[i - 1] == n;
    }
  }

  lemma NumberBelow(s: Params, p: Param)
    requires Sane(s)
    ensures Sane(Number(s, p).1) && s.largest <= Number(s, p).1.largest
    ensures Number(s, p).0 <= Number(s, p).1.largest
  {
    NumberSane(s, p);
  }

  /** A pass reserves SQLite's largest slot exactly when it had reserved it
      before or reserves it for a parameter that has it. */
  lemma {:induction false} ReservedExact(reserves: bool, s: Params, r: nat, ps: seq<Param>)
    requires Sane(s) && r <= s.largest
    ensures s.largest <= After(s, ps).largest && Reserved(reserves, s, r, ps) <= After(s, ps).largest
    ensures Reserved(reserves, s, r, ps) == After(s, ps).largest
      <==> r == After(s, ps).largest || Holds(reserves, s, ps, After(s, ps).largest)
    decreases ps
  {
    if ps != [] {
      hide Sane, Holds, Dollar;
      NumberBelow(s, ps[0]);
      ReservedExact(reserves, Number(s, ps[0]).1, NextReserved(reserves, s, r, ps[0]), ps[1..]);
      HoldsCons(reserves, s, ps, After(s, ps).largest);
    }
  }

  /** Every slot is at most the largest, and the largest is one of them. */
  lemma {:induction false} SlotsReach(s: Params, ps: seq<Param>)
    requires Sane(s)
    ensures s.largest <= After(s, ps).largest
    ensures forall i :: 0 <= i < |ps| ==> Slots(s, ps)[i] <= After(s, ps).largest
    ensures After(s, ps).largest == s.largest || Holds(true, s, ps, After(s, ps).largest)
    decreases ps
  {
    if ps != [] {
      hide Sane, Holds;
      NumberBelow(s, ps[0]);
      SlotsReach(Number(s, ps[0]).1, ps[1..]);
      HoldsCons(true, s, ps, After(s, ps).largest);
      NewLargest(s, ps[0]);
    }
  }

  lemma NewLargest(s: Params, p: Param)
    ensures Number(s, p).1.largest == s.largest || Number(s, p).1.largest == Number(s, p).0
  {
  }

  lemma {:induction false} AccountsRun(reserves: bool, slots: set<Slot>, s: Params, r: nat, ps: seq<Param>)
    requires Accounts(slots, s, r) && Positive(ps)
    ensures Accounts(slots + Range(Recorded(reserves, SlotsFor(s, ps), ps)), After(s, ps), Reserved(reserves, s, r, ps))
    decreases ps
  {
    hide Accounts;
    var run := Recorded(reserves, SlotsFor(s, ps), ps);
    if ps == [] {
      assert slots + Range(run) == slots;
    } else {
      var s', rest := Number(s, ps[0]).1, SlotsFor(Number(s, ps[0]).1, ps[1..]);
      assert SlotsFor(s, ps)[1..] == rest;
      if Dollar(ps[0]) && !reserves {
        AccountsSkip(slots, s, r, ps[0]);
        AccountsRun(reserves, slots, s', r, ps[1..]);
        assert run == Recorded(reserves, rest, ps[1..]);
      } else {
        AccountsStep(slots, s, r, ps[0]);
        AccountsRun(reserves, slots + {run[0]}, s', NextReserved(reserves, s, r, ps[0]), ps[1..]);
        assert run[1..] == Recorded(reserves, rest, ps[1..]);
        RangeCons(run);
        assert slots + {run[0]} + Range(run[1..]) == slots + Range(run);
      }
    }
  }
}
