/** The dedup and placeholders passes together: the PostgreSQL statement reads
    every parameter at SQLite's slot, and the recorded names are SQLite's. */
module Translation {
  import opened Common
  import opened Sql
  import opened Dedup
  import opened Numbering
  import opened Parameters
  import opened UpdateMeaning
  import P = Placeholders
  import SqliteParams

  /** The placeholders pass over a whole statement. */
  function Placed(u: Update): (Update, seq<Option<string>>) {
    (FillUpdate(u, P.Texts(P.NoNames, UpdateTokens(u))),
     P.EndNames(P.NoNames, UpdateTokens(u)).paramNames)
  }

  function Translated(u: Update): (Update, seq<Option<string>>) {
    Placed(Deduplicated(u))
  }

  method Translate(u: Update) returns (out: Update, names: seq<Option<string>>)
    ensures (out, names) == Translated(u)
  {
    var d := Transform(u);
    var pass := new P.Pass();
    ghost var ts, ss := AllTokens(Values(d.assignments)), SelectionTokens(d.selection);
    P.Split(P.NoNames, ts, ss);
    P.Split(P.NoNames, ts + ss, AllTokens(d.returning));
    var values := pass.VisitAll(Values(d.assignments));
    var selection := None;
    if d.selection.Some? {
      var s := pass.VisitExpr(d.selection.value);
      selection := Some(s);
    }
    var returning := pass.VisitAll(d.returning);
    out, names := Update(WithValues(d.assignments, values), selection, returning), pass.paramNames;
    ghost var all := P.Texts(P.NoNames, UpdateTokens(d));
    assert all[..|ts|] == P.Texts(P.NoNames, ts);
    assert all[|ts|..|ts| + |ss|] == P.Texts(P.EndNames(P.NoNames, ts), ss);
    assert all[|ts| + |ss|..] == P.Texts(P.EndNames(P.NoNames, ts + ss), AllTokens(d.returning));
  }

  /** The statement as SQLite runs it: every placeholder is the slot SQLite's
      left-to-right numbering gives it. */
  function SqliteNumbered(u: Update): Update
    requires SqliteParams.AllTokens(UpdateTokens(u))
  {
    FillUpdate(u, DollarTexts(SqliteSlots(u)))
  }

  function DollarTexts(ns: seq<nat>): (r: seq<string>)
    ensures |r| == |ns|
  {
    seq(|ns|, i requires 0 <= i < |ns| => P.Dollar(ns[i]))
  }

  // ----- same keys, same drops ------------------------------------------

  ghost predicate SameKeys(a: seq<Assignment>, b: seq<Assignment>) {
    |a| == |b| && forall i :: 0 <= i < |a| ==> a[i].key == b[i].key
  }

  lemma SameKeysOverridden(a: seq<Assignment>, b: seq<Assignment>, i: nat)
    requires SameKeys(a, b) && i < |a|
    ensures Overridden(a, i) <==> Overridden(b, i)
  {
  }

  // ----- when no dropped value has a placeholder ------------------------

  lemma TokensCons(a: Assignment, rest: seq<Assignment>)
    ensures AllTokens(Values([a] + rest)) == Tokens(a.value) + AllTokens(Values(rest))
  {
    assert Values([a] + rest)[1..] == Values(rest);
  }

  lemma FillCons(a: Assignment, rest: seq<Assignment>, ts: seq<string>)
    requires |ts| == |Tokens(a.value)| + |AllTokens(Values(rest))|
    ensures |ts| == |AllTokens(Values([a] + rest))|
    ensures var n := |Tokens(a.value)|;
      FillAssignments([a] + rest, ts) == [a.(value := Fill(a.value, ts[..n]))] + FillAssignments(rest, ts[n..])
  {
    TokensCons(a, rest);
    assert Values([a] + rest)[1..] == Values(rest);
  }

  /** Kept and Dropped one assignment at a time. */
  lemma KeptCons(a: Assignment, rest: seq<Assignment>)
    ensures Overridden([a] + rest, 0) ==>
              Kept([a] + rest) == Kept(rest) && Dropped([a] + rest) == [a.value] + Dropped(rest)
    ensures !Overridden([a] + rest, 0) ==>
              Kept([a] + rest) == [a] + Kept(rest) && Dropped([a] + rest) == Dropped(rest)
  {
    assert ([a] + rest)[1..] == rest;
  }

  lemma {:induction false} KeptFill(assignments: seq<Assignment>, ts: seq<string>)
    requires AllTokens(Dropped(assignments)) == []
    requires |ts| == |AllTokens(Values(assignments))|
    ensures AllTokens(Values(Kept(assignments))) == AllTokens(Values(assignments))
    ensures Kept(FillAssignments(assignments, ts)) == FillAssignments(Kept(assignments), ts)
    ensures AllTokens(Dropped(FillAssignments(assignments, ts))) == []
    decreases assignments
  {
    if assignments == [] {
      assert FillAssignments(assignments, ts) == [];
    } else {
      var a, rest := assignments[0], assignments[1..];
      var n := |Tokens(a.value)|;
      assert assignments == [a] + rest;
      TokensCons(a, rest);
      FillCons(a, rest, ts);
      var filled := a.(value := Fill(a.value, ts[..n]));
      FillTokens(a.value, ts[..n]);
      SameKeysOverridden(assignments, FillAssignments(assignments, ts), 0);
      KeptCons(a, rest);
      KeptCons(filled, FillAssignments(rest, ts[n..]));
      KeptFill(rest, ts[n..]);
      if Overridden(assignments, 0) {
        assert n == 0 && ts[n..] == ts;
      } else {
        TokensCons(a, Kept(rest));
        FillCons(a, Kept(rest), ts);
      }
    }
  }

  lemma {:induction false} KeepAllNothing(selection: Option<Expr>, values: seq<Expr>)
    requires AllTokens(values) == []
    ensures KeepAll(selection, values) == selection
    decreases values
  {
    if values != [] {
      KeepAllNothing(selection, values[1..]);
    }
  }

  lemma CoreFill(u: Update, ts: seq<string>)
    requires AllTokens(Dropped(u.assignments)) == [] && |ts| == |UpdateTokens(u)|
    ensures UpdateTokens(Core(u)) == UpdateTokens(u)
    ensures FillUpdate(Core(u), ts) == Core(FillUpdate(u, ts))
  {
    var a := |AllTokens(Values(u.assignments))|;
    KeptFill(u.assignments, ts[..a]);
    KeepAllNothing(u.selection, Dropped(u.assignments));
    KeepAllNothing(FillUpdate(u, ts).selection, Dropped(FillUpdate(u, ts).assignments));
  }

  // ----- rewriting each token by itself commutes with the rewriting ------

  function Retokened(f: string -> string): Expr -> Expr {
    (e: Expr) => Retoken(e, f)
  }

  function RetokenAssignments(assignments: seq<Assignment>, f: string -> string): (r: seq<Assignment>)
    ensures |r| == |assignments|
  {
    WithValues(assignments, MapSeq(Retokened(f), Values(assignments)))
  }

  function RetokenSelection(selection: Option<Expr>, f: string -> string): Option<Expr> {
    if selection.Some? then Some(Retoken(selection.value, f)) else None
  }

  function RetokenUpdate(u: Update, f: string -> string): Update {
    Update(RetokenAssignments(u.assignments, f), RetokenSelection(u.selection, f), MapSeq(Retokened(f), u.returning))
  }

  lemma MapSlices(f: string -> string, a: seq<string>, b: seq<string>, c: seq<string>)
    ensures var ts := MapSeq(f, a + b + c);
      && ts[..|a|] == MapSeq(f, a) && ts[|a|..|a| + |b|] == MapSeq(f, b) && ts[|a| + |b|..] == MapSeq(f, c)
  {
  }

  lemma FillAssignmentsRetoken(assignments: seq<Assignment>, f: string -> string)
    ensures FillAssignments(assignments, MapSeq(f, AllTokens(Values(assignments)))) == RetokenAssignments(assignments, f)
  {
    RetokenAll(Values(assignments), f);
  }

  lemma FillIsRetoken(u: Update, f: string -> string)
    ensures FillUpdate(u, MapSeq(f, UpdateTokens(u))) == RetokenUpdate(u, f)
  {
    hide MapSeq, FillAssignments, RetokenAssignments, FillAll, Fill;
    MapSlices(f, AllTokens(Values(u.assignments)), SelectionTokens(u.selection), AllTokens(u.returning));
    FillAssignmentsRetoken(u.assignments, f);
    RetokenAll(u.returning, f);
  }

  lemma RetokenCons(a: Assignment, rest: seq<Assignment>, f: string -> string)
    ensures RetokenAssignments([a] + rest, f)
         == [a.(value := Retoken(a.value, f))] + RetokenAssignments(rest, f)
  {
  }

  lemma MapCons<A, B>(f: A -> B, a: A, rest: seq<A>)
    ensures MapSeq(f, [a] + rest) == [f(a)] + MapSeq(f, rest)
  {
  }

  lemma RetokenKeys(assignments: seq<Assignment>, f: string -> string)
    ensures SameKeys(assignments, RetokenAssignments(assignments, f))
  {
  }

  lemma {:induction false} KeptRetoken(assignments: seq<Assignment>, f: string -> string)
    ensures Kept(RetokenAssignments(assignments, f)) == RetokenAssignments(Kept(assignments), f)
    ensures Dropped(RetokenAssignments(assignments, f)) == MapSeq(Retokened(f), Dropped(assignments))
    decreases assignments
  {
    if assignments == [] {
      assert RetokenAssignments(assignments, f) == [];
    } else {
      var a, rest := assignments[0], assignments[1..];
      assert assignments == [a] + rest;
      RetokenCons(a, rest, f);
      RetokenKeys(assignments, f);
      SameKeysOverridden(assignments, RetokenAssignments(assignments, f), 0);
      KeptCons(a, rest);
      KeptCons(a.(value := Retoken(a.value, f)), RetokenAssignments(rest, f));
      KeptRetoken(rest, f);
      RetokenCons(a, Kept(rest), f);
      MapCons(Retokened(f), a.value, Dropped(rest));
    }
  }

  lemma RetokenNode1(form: Form, a: Expr, f: string -> string)
    ensures Retoken(Node(form, [a]), f) == Node(form, [Retoken(a, f)])
  {
    RetokenNode(form, [a], f);
    assert MapSeq((e: Expr) => Retoken(e, f), [a]) == [Retoken(a, f)];
  }

  lemma RetokenNode2(form: Form, a: Expr, b: Expr, f: string -> string)
    ensures Retoken(Node(form, [a, b]), f) == Node(form, [Retoken(a, f), Retoken(b, f)])
  {
    RetokenNode(form, [a, b], f);
    assert MapSeq((e: Expr) => Retoken(e, f), [a, b]) == [Retoken(a, f), Retoken(b, f)];
  }

  lemma AlwaysTrueRetoken(value: Expr, f: string -> string)
    ensures Retoken(AlwaysTrue(value), f) == AlwaysTrue(Retoken(value, f))
  {
    var nested := Node(Nested, [value]);
    var cast := Node(Cast("TEXT"), [nested]);
    var notEmpty := Node(BinaryOp("<>"), [cast, Literal(Text(""))]);
    var either := Node(BinaryOp("OR"), [notEmpty, Literal(Bool(true))]);
    RetokenNode1(Nested, value, f);
    RetokenNode1(Cast("TEXT"), nested, f);
    RetokenNode2(BinaryOp("<>"), cast, Literal(Text("")), f);
    RetokenNode2(BinaryOp("OR"), notEmpty, Literal(Bool(true)), f);
    RetokenNode1(Nested, either, f);
  }

  lemma KeepParametersRetoken(selection: Option<Expr>, value: Expr, f: string -> string)
    ensures KeepParameters(RetokenSelection(selection, f), Retoken(value, f))
         == RetokenSelection(KeepParameters(selection, value), f)
  {
    FillTokens(value, MapSeq(f, Tokens(value)));
    AlwaysTrueRetoken(value, f);
    if selection.Some? {
      RetokenNode1(Nested, selection.value, f);
      RetokenNode2(BinaryOp("AND"), Node(Nested, [selection.value]), AlwaysTrue(value), f);
    }
  }

  lemma {:induction false} KeepAllRetoken(selection: Option<Expr>, values: seq<Expr>, f: string -> string)
    ensures KeepAll(RetokenSelection(selection, f), MapSeq(Retokened(f), values))
         == RetokenSelection(KeepAll(selection, values), f)
    decreases values
  {
    if values != [] {
      KeepParametersRetoken(selection, values[0], f);
      KeepAllRetoken(KeepParameters(selection, values[0]), values[1..], f);
      assert MapSeq(Retokened(f), values)[1..] == MapSeq(Retokened(f), values[1..]);
    }
  }

  lemma CoreRetoken(u: Update, f: string -> string)
    ensures Core(RetokenUpdate(u, f)) == RetokenUpdate(Core(u), f)
  {
    KeptRetoken(u.assignments, f);
    KeepAllRetoken(u.selection, Dropped(u.assignments), f);
  }

  // ----- no token is lost -----------------------------------------------

  lemma {:induction false} KeptOrDropped(assignments: seq<Assignment>, t: string)
    ensures t in AllTokens(Values(assignments))
        <==> t in AllTokens(Values(Kept(assignments))) || t in AllTokens(Dropped(assignments))
    decreases assignments
  {
    if assignments != [] {
      KeptOrDropped(assignments[1..], t);
      assert Values(assignments)[1..] == Values(assignments[1..]);
      if Overridden(assignments, 0) {
        assert Dropped(assignments)[1..] == Dropped(assignments[1..]);
      } else {
        assert Values(Kept(assignments))[1..] == Values(Kept(assignments[1..]));
      }
    }
  }

  lemma Tokens1(form: Form, a: Expr)
    ensures Tokens(Node(form, [a])) == Tokens(a)
  {
    assert AllTokens([a]) == Tokens(a) + AllTokens([a][1..]);
  }

  lemma Tokens2(form: Form, a: Expr, b: Expr)
    ensures Tokens(Node(form, [a, b])) == Tokens(a) + Tokens(b)
  {
    assert [a, b][1..] == [b];
    assert AllTokens([b]) == Tokens(b) + AllTokens([b][1..]);
  }

  lemma AlwaysTrueTokens(value: Expr)
    ensures Tokens(AlwaysTrue(value)) == Tokens(value)
  {
    var nested := Node(Nested, [value]);
    var cast := Node(Cast("TEXT"), [nested]);
    var notEmpty := Node(BinaryOp("<>"), [cast, Literal(Text(""))]);
    var either := Node(BinaryOp("OR"), [notEmpty, Literal(Bool(true))]);
    Tokens1(Nested, value);
    Tokens1(Cast("TEXT"), nested);
    Tokens2(BinaryOp("<>"), cast, Literal(Text("")));
    Tokens2(BinaryOp("OR"), notEmpty, Literal(Bool(true)));
    Tokens1(Nested, either);
  }

  /** A dropped value's placeholders follow the WHERE clause's, in statement
      order. */
  lemma {:induction false} KeepAllTokens(selection: Option<Expr>, values: seq<Expr>)
    ensures SelectionTokens(KeepAll(selection, values)) == SelectionTokens(selection) + AllTokens(values)
    decreases values
  {
    if values != [] {
      var next := KeepParameters(selection, values[0]);
      AlwaysTrueTokens(values[0]);
      if selection.Some? {
        Tokens1(Nested, selection.value);
        Tokens2(BinaryOp("AND"), Node(Nested, [selection.value]), AlwaysTrue(values[0]));
      }
      KeepAllTokens(next, values[1..]);
    }
  }

  lemma CoreTokens(u: Update, t: string)
    ensures t in UpdateTokens(Core(u)) <==> t in UpdateTokens(u)
  {
    KeptOrDropped(u.assignments, t);
    KeepAllTokens(u.selection, Dropped(u.assignments));
  }

  // ----- reading the fixed slots back -----------------------------------

  function Unread(t: string): Slot {
    var (n, names) := P.SlotOf(P.NoNames, t);
    if n.Some? && 1 <= n.value <= |names.paramNames| then Slot(n.value, names.paramNames[n.value - 1])
    else Slot(0, None)
  }

  function Reslotted(): string -> string {
    (t: string) => P.Rewritten(P.NoNames, t)
  }

  lemma UnreadText(s: Slot)
    requires Placeable(s)
    ensures Unread(SlotText(s)) == s
    ensures Reslotted()(SlotText(s)) == PlacedText(s)
  {
    FixedHead(P.NoNames, s);
    if s.n == 0 {
      ZeroLeft(P.NoNames);
    } else {
      P.ReadsBack(P.NoNames, s);
    }
    hide P.SlotOf, SlotText;
  }

  /** Tokens drawn from placeable slots, in any order and number. */
  lemma UnreadAll(ts: seq<string>, slots: seq<Slot>)
    requires AllPlaceable(slots) && forall t :: t in ts ==> t in SlotTexts(slots)
    ensures AllPlaceable(MapSeq(Unread, ts))
    ensures SlotTexts(MapSeq(Unread, ts)) == ts
    ensures MapSeq(Reslotted(), ts) == PlacedTexts(MapSeq(Unread, ts))
    ensures Range(MapSeq(Unread, ts)) <= Range(slots)
  {
    hide SlotText, Placeable, PlacedText, Unread, Reslotted;
    var us := MapSeq(Unread, ts);
    forall i | 0 <= i < |ts|
      ensures Placeable(us[i]) && SlotText(us[i]) == ts[i] && us[i] in Range(slots)
      ensures Reslotted()(ts[i]) == PlacedText(us[i])
    {
      assert ts[i] in SlotTexts(slots);
      var k :| 0 <= k < |slots| && SlotTexts(slots)[k] == ts[i];
      UnreadText(slots[k]);
    }
  }

  lemma UnreadRange(ts: seq<string>, slots: seq<Slot>)
    requires AllPlaceable(slots)
    requires forall t :: t in ts <==> t in SlotTexts(slots)
    ensures Range(MapSeq(Unread, ts)) == Range(slots)
  {
    hide SlotText, Placeable, PlacedText, Unread;
    var us := MapSeq(Unread, ts);
    UnreadAll(ts, slots);
    forall s | s in Range(slots)
      ensures s in Range(us)
    {
      var k :| 0 <= k < |slots| && slots[k] == s;
      assert SlotTexts(slots)[k] in ts;
      var i :| 0 <= i < |ts| && ts[i] == SlotTexts(slots)[k];
      UnreadText(s);
      assert us[i] == s;
    }
  }

  // ----- the translation, in both cases ---------------------------------

  /** The dedup pass numbers the statement: a dropped value has a placeholder. */
  predicate Moves(u: Update) {
    AllTokens(Dropped(u.assignments)) != []
  }

  function StatementParams(u: Update): (r: seq<SqliteParams.Param>)
    requires SqliteParams.AllTokens(UpdateTokens(u))
    ensures |r| == |UpdateTokens(u)|
  {
    SqliteParams.ReadAll(UpdateTokens(u))
  }

  /** The slots the shim gives the statement's placeholders. */
  function StatementSlots(u: Update): (r: seq<Slot>)
    requires SqliteParams.AllTokens(UpdateTokens(u))
    ensures |r| == |UpdateTokens(u)|
  {
    PassSlots(Moves(u), Start, StatementParams(u))
  }

  /** The slots SQLite gives them. */
  function SqliteSlots(u: Update): (r: seq<nat>)
    requires SqliteParams.AllTokens(UpdateTokens(u))
    ensures |r| == |UpdateTokens(u)|
  {
    SqliteParams.Slots(SqliteParams.NoParams, StatementParams(u))
  }

  lemma SlotsPlaceable(u: Update)
    requires SqliteParams.AllTokens(UpdateTokens(u))
    ensures AllPlaceable(StatementSlots(u))
  {
    PassPlaceable(Moves(u), Start, UpdateTokens(u));
  }

  lemma FixedTokens(u: Update, t: string)
    requires SqliteParams.AllTokens(UpdateTokens(u)) && Moves(u)
    ensures t in UpdateTokens(Core(NumberPlaceholders(u))) <==> t in SlotTexts(StatementSlots(u))
  {
    TextsAreSlots(Start, UpdateTokens(u));
    FillUpdateTokens(u, Texts(Start, UpdateTokens(u)));
    CoreTokens(NumberPlaceholders(u), t);
  }

  /** With the slots fixed first, moving values about moves no slot. */
  lemma FixedThenPlaced(u: Update)
    requires SqliteParams.AllTokens(UpdateTokens(u)) && Moves(u)
    ensures Placed(Core(NumberPlaceholders(u))).0 == Core(FillUpdate(u, PlacedTexts(StatementSlots(u))))
  {
    var slots, numbered := StatementSlots(u), NumberPlaceholders(u);
    var moved := UpdateTokens(Core(numbered));
    SlotsPlaceable(u);
    forall t | t in moved
      ensures t in SlotTexts(slots)
    {
      FixedTokens(u, t);
    }
    UnreadAll(moved, slots);
    FixedTexts(P.NoNames, MapSeq(Unread, moved));
    hide Core, FillUpdate, UpdateTokens, RetokenUpdate, PlacedTexts, NumberPlaceholders;
    FillIsRetoken(Core(numbered), Reslotted());
    CoreRetoken(numbered, Reslotted());
    NumberedRetoken(u);
  }

  lemma NumberedRetoken(u: Update)
    requires SqliteParams.AllTokens(UpdateTokens(u)) && Moves(u)
    ensures RetokenUpdate(NumberPlaceholders(u), Reslotted()) == FillUpdate(u, PlacedTexts(StatementSlots(u)))
  {
    hide SlotText, PlacedText, Placeable, Core, RetokenUpdate, FillUpdate, UpdateTokens;
    var slots, numbered := StatementSlots(u), NumberPlaceholders(u);
    var texts := Texts(Start, UpdateTokens(u));
    SlotsPlaceable(u);
    TextsAreSlots(Start, UpdateTokens(u));
    FillUpdateTokens(u, texts);
    assert MapSeq(Reslotted(), texts) == PlacedTexts(slots) by {
      forall i | 0 <= i < |texts|
        ensures Reslotted()(texts[i]) == PlacedText(slots[i])
      {
        UnreadText(slots[i]);
      }
    }
    FillIsRetoken(numbered, Reslotted());
    RefillUpdate(u, texts, PlacedTexts(slots));
  }

  lemma FixedNames(u: Update)
    requires SqliteParams.AllTokens(UpdateTokens(u)) && Moves(u)
    requires AllFixed(StatementSlots(u)) && Consistent(Range(StatementSlots(u)))
    ensures Describes(Placed(Core(NumberPlaceholders(u))).1, Range(StatementSlots(u)))
  {
    var slots := StatementSlots(u);
    var moved := UpdateTokens(Core(NumberPlaceholders(u)));
    SlotsPlaceable(u);
    forall t
      ensures t in moved <==> t in SlotTexts(slots)
    {
      FixedTokens(u, t);
    }
    var us := MapSeq(Unread, moved);
    UnreadAll(moved, slots);
    UnreadRange(moved, slots);
    AllFixedIn(us, slots);
    FixedRun(P.NoNames, us);
    assert {} + Range(us) == Range(us);
    DescribesAll([], us, {});
  }

  lemma AllFixedIn(us: seq<Slot>, slots: seq<Slot>)
    requires AllFixed(slots) && Range(us) <= Range(slots)
    ensures AllFixed(us)
  {
    forall i | 0 <= i < |us|
      ensures P.Fixed(us[i])
    {
      assert us[i] in Range(us);
    }
  }

  lemma RawPlaced(u: Update)
    requires SqliteParams.AllTokens(UpdateTokens(u)) && !Moves(u)
    ensures RetokenUpdate(Placed(Core(u)).0, Canonical) == Core(FillUpdate(u, Dollars(StatementSlots(u))))
  {
    var texts := P.Texts(P.NoNames, UpdateTokens(u));
    RawRun(Start, P.NoNames, UpdateTokens(u));
    assert MapSeq(Canonical, texts) == AllCanonical(texts);
    hide Core, FillUpdate, UpdateTokens, RetokenUpdate;
    CoreFill(u, texts);
    CoreFill(u, Dollars(StatementSlots(u)));
    FillUpdateTokens(Core(u), texts);
    FillIsRetoken(FillUpdate(Core(u), texts), Canonical);
    RefillUpdate(Core(u), texts, Dollars(StatementSlots(u)));
  }

  lemma RawNames(u: Update)
    requires SqliteParams.AllTokens(UpdateTokens(u)) && !Moves(u)
    requires Consistent(Range(Recorded(false, StatementSlots(u), StatementParams(u))))
    ensures Describes(Placed(Core(u)).1, Range(Recorded(false, StatementSlots(u), StatementParams(u))))
  {
    var recorded := Recorded(false, StatementSlots(u), StatementParams(u));
    RawRun(Start, P.NoNames, UpdateTokens(u));
    CoreFill(u, UpdateTokens(u));
    assert {} + Range(recorded) == Range(recorded);
    DescribesAll([], recorded, {});
  }

  // ----- what the statement becomes, whatever its tokens ----------------

  /** The shim's texts, as PostgreSQL reads them. */
  function ShimTexts(u: Update): (r: seq<string>)
    requires SqliteParams.AllTokens(UpdateTokens(u))
    ensures |r| == |UpdateTokens(u)|
  {
    if Moves(u) then PlacedTexts(StatementSlots(u)) else Dollars(StatementSlots(u))
  }

  lemma PlacedCanonical(s: Slot)
    requires Placeable(s)
    ensures Canonical(PlacedText(s)) == PlacedText(s)
  {
    DollarCanonical(s.n);
  }

  lemma TextsCanonical(u: Update)
    requires SqliteParams.AllTokens(UpdateTokens(u)) && Moves(u)
    ensures MapSeq(Canonical, ShimTexts(u)) == ShimTexts(u)
  {
    hide Placeable, PlacedText, Canonical;
    SlotsPlaceable(u);
    var slots := StatementSlots(u);
    forall i | 0 <= i < |slots|
      ensures Canonical(ShimTexts(u)[i]) == ShimTexts(u)[i]
    {
      PlacedCanonical(slots[i]);
    }
  }

  /** The translation is the dedup rewriting of the statement with the shim's
      slots filled in. */
  lemma TranslationFills(u: Update)
    requires SqliteParams.AllTokens(UpdateTokens(u))
    ensures RetokenUpdate(Translated(u).0, Canonical) == Core(FillUpdate(u, ShimTexts(u)))
  {
    if Moves(u) {
      FixedThenPlaced(u);
      var filled := FillUpdate(u, ShimTexts(u));
      TextsCanonical(u);
      FillUpdateTokens(u, ShimTexts(u));
      hide Core, FillUpdate, UpdateTokens, RetokenUpdate, ShimTexts;
      FillIsRetoken(filled, Canonical);
      RefillUpdate(u, ShimTexts(u), ShimTexts(u));
      CoreRetoken(filled, Canonical);
    } else {
      RawPlaced(u);
    }
  }

  // ----- the rewriting loses no text ------------------------------------

  ghost predicate SameCounts(a: seq<Assignment>, b: seq<Assignment>) {
    && SameKeys(a, b)
    && forall i :: 0 <= i < |a| ==> |Tokens(a[i].value)| == |Tokens(b[i].value)|
  }

  lemma SplitAt(a: seq<string>, b: seq<string>, c: seq<string>, d: seq<string>)
    requires |a| == |c| && a + b == c + d
    ensures a == c && b == d
  {
    assert a == (a + b)[..|a|] && c == (c + d)[..|a|];
    assert b == (a + b)[|a|..] && d == (c + d)[|a|..];
  }

  lemma CountsCons(a: Assignment, ra: seq<Assignment>, b: Assignment, rb: seq<Assignment>)
    requires SameCounts([a] + ra, [b] + rb)
    ensures SameCounts(ra, rb) && |Tokens(a.value)| == |Tokens(b.value)|
    ensures Overridden([a] + ra, 0) <==> Overridden([b] + rb, 0)
  {
    var x, y := [a] + ra, [b] + rb;
    assert x[0] == a && y[0] == b && |ra| == |rb|;
    forall i | 0 <= i < |ra|
      ensures ra[i].key == rb[i].key && |Tokens(ra[i].value)| == |Tokens(rb[i].value)|
    {
      assert x[i + 1] == ra[i] && y[i + 1] == rb[i];
    }
    SameKeysOverridden(x, y, 0);
  }

  /** The kept and the dropped placeholders together are all of them. */
  lemma {:induction false} KeptAndDropped(a: seq<Assignment>, b: seq<Assignment>)
    requires SameCounts(a, b)
    requires AllTokens(Values(Kept(a))) == AllTokens(Values(Kept(b)))
    requires AllTokens(Dropped(a)) == AllTokens(Dropped(b))
    ensures AllTokens(Values(a)) == AllTokens(Values(b))
    decreases a
  {
    if a != [] {
      var x, xs, y, ys := a[0], a[1..], b[0], b[1..];
      assert a == [x] + xs && b == [y] + ys;
      hide SameCounts, Overridden, Kept, Dropped, Tokens;
      CountsCons(x, xs, y, ys);
      KeptCons(x, xs);
      KeptCons(y, ys);
      TokensCons(x, xs);
      TokensCons(y, ys);
      if Overridden(a, 0) {
        AllTokensCons(x.value, Dropped(xs));
        AllTokensCons(y.value, Dropped(ys));
        SplitAt(Tokens(x.value), AllTokens(Dropped(xs)), Tokens(y.value), AllTokens(Dropped(ys)));
      } else {
        TokensCons(x, Kept(xs));
        TokensCons(y, Kept(ys));
        SplitAt(Tokens(x.value), AllTokens(Values(Kept(xs))), Tokens(y.value), AllTokens(Values(Kept(ys))));
      }
      KeptAndDropped(xs, ys);
    }
  }

  lemma CountsJoin(a: Assignment, ra: seq<Assignment>, b: Assignment, rb: seq<Assignment>)
    requires SameCounts(ra, rb) && a.key == b.key && |Tokens(a.value)| == |Tokens(b.value)|
    ensures SameCounts([a] + ra, [b] + rb)
  {
    hide Tokens;
  }

  lemma {:induction false} FillCounts(assignments: seq<Assignment>, ts: seq<string>)
    requires |ts| == |AllTokens(Values(assignments))|
    ensures SameCounts(assignments, FillAssignments(assignments, ts))
    decreases assignments
  {
    if assignments == [] {
      assert FillAssignments(assignments, ts) == [];
    } else {
      hide SameCounts, Tokens, Fill, FillAssignments;
      var a, rest := assignments[0], assignments[1..];
      var n := |Tokens(a.value)|;
      assert assignments == [a] + rest;
      TokensCons(a, rest);
      FillCons(a, rest, ts);
      FillTokens(a.value, ts[..n]);
      FillCounts(rest, ts[n..]);
      CountsJoin(a, rest, a.(value := Fill(a.value, ts[..n])), FillAssignments(rest, ts[n..]));
    }
  }

  /** Statements that differ in a placeholder are rewritten differently. */
  lemma CoreFillDiffers(u: Update, ts: seq<string>, vs: seq<string>)
    requires |ts| == |vs| == |UpdateTokens(u)|
    ensures Core(FillUpdate(u, ts)) == Core(FillUpdate(u, vs)) ==> ts == vs
  {
    var x, y := FillUpdate(u, ts), FillUpdate(u, vs);
    if Core(x) == Core(y) {
      var a := |AllTokens(Values(u.assignments))|;
      FillCounts(u.assignments, ts[..a]);
      FillCounts(u.assignments, vs[..a]);
      KeepAllTokens(x.selection, Dropped(x.assignments));
      KeepAllTokens(y.selection, Dropped(y.assignments));
      SelectionSameLength(u, ts, vs);
      SplitAt(SelectionTokens(x.selection), AllTokens(Dropped(x.assignments)),
              SelectionTokens(y.selection), AllTokens(Dropped(y.assignments)));
      hide Fill, FillAll, FillAssignments, FillSelection;
      KeptAndDropped(x.assignments, y.assignments);
      FillUpdateTokens(u, ts);
      FillUpdateTokens(u, vs);
    }
  }

  lemma SelectionSameLength(u: Update, ts: seq<string>, vs: seq<string>)
    requires |ts| == |vs| == |UpdateTokens(u)|
    ensures |SelectionTokens(FillUpdate(u, ts).selection)| == |SelectionTokens(FillUpdate(u, vs).selection)|
  {
    var a := |AllTokens(Values(u.assignments))|;
    var b := a + |SelectionTokens(u.selection)|;
    RefillSelection(u.selection, ts[a..b], ts[a..b]);
    RefillSelection(u.selection, vs[a..b], vs[a..b]);
  }

  // ----- the theorem ----------------------------------------------------

  lemma DollarDiffers(a: nat, b: nat)
    ensures P.Dollar(a) == P.Dollar(b) ==> a == b
  {
    assert P.Dollar(a)[1..] == Decimal(a) && P.Dollar(b)[1..] == Decimal(b);
  }

  lemma TextIsNumber(s: Slot, n: nat)
    requires n >= 1
    ensures PlacedText(s) == P.Dollar(n) <==> s.n == n
    ensures P.Dollar(s.n) == P.Dollar(n) <==> s.n == n
  {
    DollarDiffers(s.n, n);
    assert P.Dollar(n)[0] == '$' && SlotText(s)[0] == '?';
  }

  lemma {:induction false} SlotsPositive(s: SqliteParams.Params, ts: seq<string>)
    requires SqliteParams.AllTokens(ts) && SqliteParams.Sane(s)
    ensures forall i :: 0 <= i < |ts| ==> SqliteParams.Slots(s, SqliteParams.ReadAll(ts))[i] >= 1
    decreases ts
  {
    if ts != [] {
      ReadAllTail(ts);
      SqliteParams.NumberSane(s, SqliteParams.Read(ts[0]));
      SlotsPositive(SqliteParams.Number(s, SqliteParams.Read(ts[0])).1, ts[1..]);
    }
  }

  lemma TextsAreNumbers(u: Update)
    requires SqliteParams.AllTokens(UpdateTokens(u))
    ensures ShimTexts(u) == DollarTexts(SqliteSlots(u)) <==> Numbers(StatementSlots(u)) == SqliteSlots(u)
  {
    SlotsPositive(SqliteParams.NoParams, UpdateTokens(u));
    var slots, ns := StatementSlots(u), SqliteSlots(u);
    hide StatementSlots, SqliteSlots, PlacedText, P.Dollar;
    forall i | 0 <= i < |ns|
      ensures ShimTexts(u)[i] == DollarTexts(ns)[i] <==> Numbers(slots)[i] == ns[i]
    {
      TextIsNumber(slots[i], ns[i]);
    }
  }

  /** As PostgreSQL reads it, the translation is the dedup rewriting of the
      statement as SQLite numbers it, exactly when no name but a `$NNN` appears
      under two sigils and every parameter is in place. */
  lemma TranslationKeepsSlots(u: Update)
    requires SqliteParams.AllTokens(UpdateTokens(u))
    ensures RetokenUpdate(Translated(u).0, Canonical) == Core(SqliteNumbered(u))
      <==> Sound(Moves(u), StatementParams(u))
  {
    hide Translated, RetokenUpdate, Core, FillUpdate, UpdateTokens, Sound, Moves;
    TranslationFills(u);
    CoreFillDiffers(u, ShimTexts(u), DollarTexts(SqliteSlots(u)));
    TextsAreNumbers(u);
    NumberingIsSqlites(Moves(u), UpdateTokens(u));
  }

  /** The largest slot the shim has a place for in its list of names. */
  function ReservedSlots(u: Update): nat
    requires SqliteParams.AllTokens(UpdateTokens(u))
  {
    Reserved(Moves(u), SqliteParams.NoParams, 0, StatementParams(u))
  }

  function EndParams(u: Update): SqliteParams.Params
    requires SqliteParams.AllTokens(UpdateTokens(u))
  {
    SqliteParams.After(SqliteParams.NoParams, StatementParams(u))
  }

  lemma TokensPositive(ts: seq<string>)
    requires SqliteParams.AllTokens(ts)
    ensures Positive(SqliteParams.ReadAll(ts))
  {
    var ps := SqliteParams.ReadAll(ts);
    forall i | 0 <= i < |ps| && ps[i].At?
      ensures ps[i].n >= 1
    {
      assert ts[i] in ts;
    }
  }

  lemma StatementAccounts(u: Update)
    requires SqliteParams.AllTokens(UpdateTokens(u)) && Sound(Moves(u), StatementParams(u))
    ensures Accounts(Range(Recorded(Moves(u), StatementSlots(u), StatementParams(u))), EndParams(u), ReservedSlots(u))
  {
    var ps, none := StatementParams(u), SqliteParams.NoParams;
    NumberingIsSqlites(Moves(u), UpdateTokens(u));
    NumbersAsSqlite(Moves(u), none, Start, ps);
    TokensPositive(UpdateTokens(u));
    AccountsRun(Moves(u), {}, none, 0, ps);
    var recorded := Recorded(Moves(u), StatementSlots(u), ps);
    assert {} + Range(recorded) == Range(recorded);
  }

  lemma AccountedFixed(slots: seq<Slot>, s: SqliteParams.Params, r: nat)
    requires Accounts(Range(slots), s, r) && AllPlaceable(slots)
    ensures AllFixed(slots)
  {
    forall i | 0 <= i < |slots|
      ensures P.Fixed(slots[i])
    {
      assert slots[i] in Range(slots);
    }
  }

  /** SQLite's last slot is held by a parameter the shim reserves a slot for:
      any parameter when the dedup pass numbers the statement, one that is no
      `$NNN` otherwise. */
  ghost predicate Bindable(u: Update)
    requires SqliteParams.AllTokens(UpdateTokens(u))
  {
    EndParams(u).largest == 0 || Holds(Moves(u), SqliteParams.NoParams, StatementParams(u), EndParams(u).largest)
  }

  /** The list of names reaches SQLite's last slot exactly then. */
  lemma NamesReach(u: Update)
    requires SqliteParams.AllTokens(UpdateTokens(u))
    ensures ReservedSlots(u) <= EndParams(u).largest
    ensures ReservedSlots(u) == EndParams(u).largest <==> Bindable(u)
  {
    ReservedExact(Moves(u), SqliteParams.NoParams, 0, StatementParams(u));
  }

  /** Always when the dedup pass numbers the statement or it has no `$NNN`. */
  lemma BindableWithout(u: Update)
    requires SqliteParams.AllTokens(UpdateTokens(u))
    requires Moves(u) || forall i :: 0 <= i < |StatementParams(u)| ==> !Dollar(StatementParams(u)[i])
    ensures Bindable(u)
  {
    SlotsReach(SqliteParams.NoParams, StatementParams(u));
  }

  /** And then the recorded names are SQLite's, slot by slot, up to the largest
      slot the shim reserves, which is SQLite's last exactly when some parameter
      it reserves a slot for holds that. */
  lemma TranslationKeepsNames(u: Update)
    requires SqliteParams.AllTokens(UpdateTokens(u)) && Sound(Moves(u), StatementParams(u))
    ensures SqliteParams.Sane(EndParams(u)) && NamesOf(Translated(u).1, EndParams(u), ReservedSlots(u))
    ensures |Translated(u).1| == EndParams(u).largest <==> Bindable(u)
  {
    var slots, ps := StatementSlots(u), StatementParams(u);
    var recorded := Recorded(Moves(u), slots, ps);
    StatementAccounts(u);
    AccountsConsistent(Range(recorded), EndParams(u), ReservedSlots(u));
    hide Accounts, NamesOf, Describes, Sound, Consistent;
    if Moves(u) {
      RecordsAll(slots, ps);
      SlotsPlaceable(u);
      AccountedFixed(slots, EndParams(u), ReservedSlots(u));
      FixedNames(u);
    } else {
      RawNames(u);
    }
    AccountsNames(Translated(u).1, Range(recorded), EndParams(u), ReservedSlots(u));
    hide Bindable;
    NamesReach(u);
    NamesCount(Translated(u).1, EndParams(u), ReservedSlots(u));
  }

  lemma NamesCount(names: seq<Option<string>>, s: SqliteParams.Params, r: nat)
    requires SqliteParams.Sane(s) && NamesOf(names, s, r)
    ensures |names| == r
  {
  }

  // ----- every parameter is sent ----------------------------------------

  /** PostgreSQL reads the token as one of the first k values it is sent. */
  predicate HasValue(t: string, k: nat) {
    DollarNumber(t) && 1 <= DigitsValue(t[1..]) <= k
  }

  /** As many values are sent as names were recorded; PostgreSQL refuses a
      statement that asks for more. */
  predicate Accepted(u: Update) {
    forall t :: t in UpdateTokens(Translated(u).0) ==> HasValue(t, |Translated(u).1|)
  }

  lemma ReadsSlot(t: string, n: nat)
    requires Canonical(t) == P.Dollar(n)
    ensures DollarNumber(t) && DigitsValue(t[1..]) == n
  {
    assert P.Dollar(n)[1..] == Decimal(n);
    assert DollarNumber(P.Dollar(n));
    if DollarNumber(t) {
      DollarDiffers(DigitsValue(t[1..]), n);
    }
  }

  lemma RetokenedTokens(u: Update, f: string -> string)
    ensures UpdateTokens(RetokenUpdate(u, f)) == MapSeq(f, UpdateTokens(u))
  {
    FillIsRetoken(u, f);
    FillUpdateTokens(u, MapSeq(f, UpdateTokens(u)));
  }

  /** The numbers read are SQLite's slots, all of them and no other. */
  lemma ReadsSlots(u: Update, t: string)
    requires SqliteParams.AllTokens(UpdateTokens(u)) && Sound(Moves(u), StatementParams(u))
    ensures t in MapSeq(Canonical, UpdateTokens(Translated(u).0)) <==> t in DollarTexts(SqliteSlots(u))
  {
    TranslationKeepsSlots(u);
    FillUpdateTokens(u, DollarTexts(SqliteSlots(u)));
    CoreTokens(SqliteNumbered(u), t);
    hide Translated, Core, RetokenUpdate, UpdateTokens, FillUpdate, SqliteSlots, Sound, Moves;
    RetokenedTokens(Translated(u).0, Canonical);
  }

  lemma TokenSlot(u: Update, t: string) returns (i: nat)
    requires SqliteParams.AllTokens(UpdateTokens(u)) && Sound(Moves(u), StatementParams(u))
    requires t in UpdateTokens(Translated(u).0)
    ensures i < |SqliteSlots(u)| && DollarNumber(t) && DigitsValue(t[1..]) == SqliteSlots(u)[i]
  {
    var ts := UpdateTokens(Translated(u).0);
    var k :| 0 <= k < |ts| && ts[k] == t;
    assert MapSeq(Canonical, ts)[k] == Canonical(t);
    ReadsSlots(u, Canonical(t));
    hide Translated, SqliteSlots, Sound, Moves, UpdateTokens, Canonical, P.Dollar;
    i :| 0 <= i < |SqliteSlots(u)| && DollarTexts(SqliteSlots(u))[i] == Canonical(t);
    ReadsSlot(t, SqliteSlots(u)[i]);
  }

  lemma SlotToken(u: Update, i: nat) returns (t: string)
    requires SqliteParams.AllTokens(UpdateTokens(u)) && Sound(Moves(u), StatementParams(u)) && i < |SqliteSlots(u)|
    ensures t in UpdateTokens(Translated(u).0) && DollarNumber(t) && DigitsValue(t[1..]) == SqliteSlots(u)[i]
  {
    var ts := UpdateTokens(Translated(u).0);
    var d := DollarTexts(SqliteSlots(u))[i];
    ReadsSlots(u, d);
    hide Translated, SqliteSlots, Sound, Moves, UpdateTokens, Canonical, P.Dollar;
    var k :| 0 <= k < |ts| && MapSeq(Canonical, ts)[k] == d;
    t := ts[k];
    ReadsSlot(t, SqliteSlots(u)[i]);
  }

  /** Every parameter PostgreSQL asks for is sent exactly when the list of names
      reaches SQLite's last slot. */
  lemma AcceptedExact(u: Update)
    requires SqliteParams.AllTokens(UpdateTokens(u)) && Sound(Moves(u), StatementParams(u))
    ensures Accepted(u) <==> Bindable(u)
  {
    TranslationKeepsNames(u);
    NamesReach(u);
    NamesCount(Translated(u).1, EndParams(u), ReservedSlots(u));
    SlotsReach(SqliteParams.NoParams, StatementParams(u));
    SlotsPositive(SqliteParams.NoParams, UpdateTokens(u));
    if Bindable(u) {
      AcceptedWhen(u);
    } else {
      var i :| 0 <= i < |SqliteSlots(u)| && SqliteSlots(u)[i] == EndParams(u).largest;
      var t := SlotToken(u, i);
      assert !HasValue(t, |Translated(u).1|);
    }
  }

  lemma AcceptedWhen(u: Update)
    requires SqliteParams.AllTokens(UpdateTokens(u)) && Sound(Moves(u), StatementParams(u))
    requires forall i :: 0 <= i < |SqliteSlots(u)| ==> 1 <= SqliteSlots(u)[i] <= |Translated(u).1|
    ensures Accepted(u)
  {
    hide Translated, SqliteSlots, Sound, Moves, UpdateTokens;
    forall t | t in UpdateTokens(Translated(u).0)
      ensures HasValue(t, |Translated(u).1|)
    {
      var i := TokenSlot(u, t);
    }
  }

  /** PostgreSQL accepts the translation and reads in it the dedup rewriting of
      the statement as SQLite numbers it, exactly when the numbering condition
      holds and the list of names reaches SQLite's last slot. */
  lemma TranslationIsExact(u: Update)
    requires SqliteParams.AllTokens(UpdateTokens(u))
    ensures RetokenUpdate(Translated(u).0, Canonical) == Core(SqliteNumbered(u)) && Accepted(u)
      <==> Sound(Moves(u), StatementParams(u)) && Bindable(u)
  {
    hide Translated, RetokenUpdate, Core, SqliteNumbered, Sound, Moves, Accepted, Bindable;
    TranslationKeepsSlots(u);
    if Sound(Moves(u), StatementParams(u)) {
      AcceptedExact(u);
    }
  }

  // ----- and what it means ----------------------------------------------

  /** Parameters read the caller's values by number. */
  ghost predicate Bound<V>(param: string -> V, binds: seq<V>) {
    forall t :: HasValue(t, |binds|) ==> param(t) == binds[DigitsValue(t[1..]) - 1]
  }

  /** The other assignment of parameters gives each of the tokens the value this
      one gives its canonical form. */
  ghost predicate Carried<V>(m: Model<V>, param: string -> V, ts: seq<string>) {
    forall t :: t in ts ==> param(t) == m.param(Canonical(t))
  }

  lemma {:induction false} CarriedEval<V>(m: Model<V>, param: string -> V, e: Expr)
    requires Carried(m, param, Tokens(e))
    ensures Eval(m.(param := param), e) == Eval(m, Retoken(e, Canonical))
    decreases e, 1
  {
    match e
    case Placeholder(t) =>
      assert t in Tokens(e);
    case Node(form, es) =>
      RetokenNode(form, es, Canonical);
      CarriedEvalAll(m, param, es);
    case _ =>
  }

  lemma {:induction false} CarriedEvalAll<V>(m: Model<V>, param: string -> V, es: seq<Expr>)
    requires Carried(m, param, AllTokens(es))
    ensures EvalAll(m.(param := param), es) == EvalAll(m, MapSeq((e: Expr) => Retoken(e, Canonical), es))
    decreases es, 0
  {
    if es != [] {
      var all := MapSeq((e: Expr) => Retoken(e, Canonical), es);
      assert AllTokens(es) == Tokens(es[0]) + AllTokens(es[1..]);
      CarriedEval(m, param, es[0]);
      CarriedEvalAll(m, param, es[1..]);
      assert all[1..] == MapSeq((e: Expr) => Retoken(e, Canonical), es[1..]);
    }
  }

  lemma CarriedSelects<V>(m: Model<V>, param: string -> V, truth: V -> Truth, selection: Option<Expr>)
    requires Carried(m, param, SelectionTokens(selection))
    ensures Selects(m.(param := param), truth, selection) <==> Selects(m, truth, RetokenSelection(selection, Canonical))
  {
    if selection.Some? {
      CarriedEval(m, param, selection.value);
    }
  }

  lemma CarriedRow<V>(m: Model<V>, param: string -> V, assignments: seq<Assignment>, row: Row<V>, after: Row<V>)
    requires Carried(m, param, AllTokens(Values(assignments)))
    ensures PgRow(m.(param := param), assignments, row, after)
      <==> PgRow(m, RetokenAssignments(assignments, Canonical), row, after)
  {
    var b := RetokenAssignments(assignments, Canonical);
    forall i | 0 <= i < |assignments|
      ensures b[i].key == assignments[i].key
      ensures Eval(m.(param := param), assignments[i].value) == Eval(m, b[i].value)
    {
      ValueTokens(assignments, i);
      CarriedEval(m, param, assignments[i].value);
    }
    SameTargets(assignments, b);
    hide RetokenAssignments, Eval, Targets, Carried;
  }

  lemma ValueTokens(assignments: seq<Assignment>, i: nat)
    requires i < |assignments|
    ensures forall t :: t in Tokens(assignments[i].value) ==> t in AllTokens(Values(assignments))
  {
    TokensWithin(Values(assignments), i);
  }

  lemma {:induction false} TokensWithin(es: seq<Expr>, i: nat)
    requires i < |es|
    ensures forall t :: t in Tokens(es[i]) ==> t in AllTokens(es)
  {
    assert AllTokens(es) == Tokens(es[0]) + AllTokens(es[1..]);
    if i > 0 {
      TokensWithin(es[1..], i - 1);
    }
  }

  lemma SameTargets(a: seq<Assignment>, b: seq<Assignment>)
    requires SameKeys(a, b)
    ensures Targets(a) == Targets(b)
  {
    forall k
      ensures k in Targets(a) <==> k in Targets(b)
    {
      if k in Targets(a) {
        var i :| 0 <= i < |a| && a[i].key == k;
        assert b[i].key == k;
      }
      if k in Targets(b) {
        var i :| 0 <= i < |b| && b[i].key == k;
        assert a[i].key == k;
      }
    }
  }

  /** What PostgreSQL is sent and what SQLite was given are one list of values,
      as long as the list of names. */
  lemma BindsCarry<V>(u: Update, m: Model<V>, param: string -> V, binds: seq<V>)
    requires SqliteParams.AllTokens(UpdateTokens(u)) && Sound(Moves(u), StatementParams(u)) && Bindable(u)
    requires |binds| == |Translated(u).1| && Bound(m.param, binds) && Bound(param, binds)
    ensures Carried(m, param, UpdateTokens(Translated(u).0))
  {
    AcceptedExact(u);
    hide Translated, Sound, Moves, UpdateTokens, Bindable, Bound, HasValue, Canonical;
    forall t | t in UpdateTokens(Translated(u).0)
      ensures param(t) == m.param(Canonical(t))
    {
      OneCarries(m, param, binds, t);
    }
  }

  lemma OneCarries<V>(m: Model<V>, param: string -> V, binds: seq<V>, t: string)
    requires Bound(m.param, binds) && Bound(param, binds) && HasValue(t, |binds|)
    ensures param(t) == m.param(Canonical(t))
  {
    ValueCanonical(t, |binds|);
  }

  lemma ValueCanonical(t: string, k: nat)
    requires HasValue(t, k)
    ensures HasValue(Canonical(t), k) && DigitsValue(Canonical(t)[1..]) == DigitsValue(t[1..])
  {
    var n := DigitsValue(t[1..]);
    assert P.Dollar(n)[1..] == Decimal(n);
  }

  /** One statement does on PostgreSQL what the other does on SQLite: it selects
      the row or not, writes the same row and returns the same values. */
  ghost predicate SameEffect<V(!new)>(pg: Model<V>, t: Update, m: Model<V>, u: Update, truth: V -> Truth, row: Row<V>) {
    && (Selects(pg, truth, t.selection) <==> Selects(m, truth, u.selection))
    && PgRow(pg, t.assignments, row, SqliteRow(m, u.assignments, row))
    && EvalAll(pg, t.returning) == EvalAll(m, u.returning)
  }

  /** For every such statement and row and every list of values, one for each
      recorded name, the PostgreSQL statement selects the rows SQLite selects,
      writes the row SQLite writes and returns the same values.  Nothing is
      supposed of a parameter past the list, in either server. */
  lemma TranslationIsFaithful<V(!new)>(u: Update, m: Model<V>, truth: V -> Truth, row: Row<V>,
                                       param: string -> V, binds: seq<V>)
    requires SqliteParams.AllTokens(UpdateTokens(u)) && Sound(Moves(u), StatementParams(u)) && Bindable(u)
    requires |binds| == |Translated(u).1| && Bound(m.param, binds) && Bound(param, binds)
    requires Lawful(m, truth)
    ensures SameEffect(m.(param := param), Translated(u).0, m, SqliteNumbered(u), truth, row)
  {
    TranslationKeepsSlots(u);
    CoreKeepsMeaning(SqliteNumbered(u), m, truth, row);
    BindsCarry(u, m, param, binds);
    var t := Translated(u).0;
    assert Carried(m, param, AllTokens(Values(t.assignments)));
    assert Carried(m, param, SelectionTokens(t.selection));
    assert Carried(m, param, AllTokens(t.returning));
    hide Translated, SqliteNumbered, PgRow, Selects, Sound, Lawful, Moves, Bound, Carried, Bindable;
    CarriedSelects(m, param, truth, t.selection);
    CarriedRow(m, param, t.assignments, row, SqliteRow(m, SqliteNumbered(u).assignments, row));
    CarriedEvalAll(m, param, t.returning);
  }

  /** Where evaluation can fail, PostgreSQL's statement fails only where SQLite's
      would. */
  lemma TranslationFails<V(!new)>(u: Update, m: Model<Option<V>>, types: Types<V>,
                                  param: string -> Option<V>, binds: seq<Option<V>>)
    requires SqliteParams.AllTokens(UpdateTokens(u)) && Sound(Moves(u), StatementParams(u)) && Bindable(u)
    requires |binds| == |Translated(u).1| && Bound(m.param, binds) && Bound(param, binds)
    requires Typed(m, types)
    ensures Fails(m.(param := param), types, Translated(u).0) ==> Fails(m, types, SqliteNumbered(u))
  {
    TranslationKeepsSlots(u);
    CoreFails(SqliteNumbered(u), m, types);
    BindsCarry(u, m, param, binds);
    hide Translated, SqliteNumbered, Sound, Typed, Moves, Bound, Bindable, Core, Fails;
    CarriedFails(m, types, param, Translated(u).0);
  }

  lemma CarriedFails<V>(m: Model<Option<V>>, types: Types<V>, param: string -> Option<V>, t: Update)
    requires Carried(m, param, UpdateTokens(t))
    ensures Fails(m.(param := param), types, t) <==> Fails(m, types, RetokenUpdate(t, Canonical))
  {
    assert Carried(m, param, AllTokens(Values(t.assignments)));
    assert Carried(m, param, SelectionTokens(t.selection));
    assert Carried(m, param, AllTokens(t.returning));
    var pg, r := m.(param := param), RetokenUpdate(t, Canonical);
    assert Values(r.assignments) == MapSeq(Retokened(Canonical), Values(t.assignments));
    hide Carried, RetokenAssignments, SomeFails;
    CarriedEvalAll(m, param, Values(t.assignments));
    CarriedEvalAll(m, param, t.returning);
    SomeFailsIs(pg, Values(t.assignments));
    SomeFailsIs(pg, t.returning);
    SomeFailsIs(m, Values(r.assignments));
    SomeFailsIs(m, r.returning);
    if t.selection.Some? {
      CarriedEval(m, param, t.selection.value);
    }
  }

  /** Parameters that read a list of SQL values, and NULL past it. */
  function Reading(binds: seq<Value>): string -> Value {
    (t: string) => if HasValue(t, |binds|) then binds[DigitsValue(t[1..]) - 1] else VNull
  }

  /** SQL's own values with parameters read from a list are such a model. */
  lemma SqlIsBound(columns: string -> Value, binds: seq<Value>)
    ensures var m := SqlModel(columns, Reading(binds));
      Lawful(m, ValueTruth) && Bound(m.param, binds)
  {
    SqlIsLawful(columns, Reading(binds));
  }

  // ----- where the shim and SQLite part ---------------------------------

  /** `:x` and `@x` are two parameters to SQLite and one to the shim. */
  lemma TwoSigilsShareASlot(reserves: bool)
    ensures SqliteParams.Slots(SqliteParams.NoParams, SqliteParams.ReadAll([":x", "@x"])) == [1, 2]
    ensures Numbers(PassSlots(reserves, Start, SqliteParams.ReadAll([":x", "@x"]))) == [1, 1]
  {
    var x, y := SqliteParams.Name(':', "x"), SqliteParams.Name('@', "x");
    assert SqliteParams.ReadAll([":x", "@x"]) == [x, y];
    assert [x, y][1..] == [y] && [y][1..] == [];
    var none := SqliteParams.NoParams;
    assert SqliteParams.Slots(SqliteParams.Number(none, x).1, [y]) == [2];
    assert PassSlots(reserves, AssignParam(reserves, Start, x).1, [y]) == [Slot(1, Some("x"))];
  }

  /** `$5` is the first parameter to SQLite and the fifth to either pass. */
  lemma DollarNumberIsASlot(reserves: bool)
    ensures SqliteParams.Token("$5") && SqliteParams.Number(SqliteParams.NoParams, SqliteParams.Read("$5")).0 == 1
    ensures AssignParam(reserves, Start, SqliteParams.Read("$5")).0 == Slot(5, None)
  {
    assert "$5"[1..] == "5";
    assert "5"[..0] == "";
    assert DigitsValue("5") == 5;
  }

  /** SET a = $1 WHERE id = ?: two parameters to SQLite and to the dedup pass,
      one to the placeholders pass, which leaves `$1` and then gives `?` its
      slot. */
  lemma DollarTakesNoSlot()
    ensures SqliteParams.AllTokens(["$1", "?"])
    ensures SqliteParams.Slots(SqliteParams.NoParams, SqliteParams.ReadAll(["$1", "?"])) == [1, 2]
    ensures Numbers(PassSlots(true, Start, SqliteParams.ReadAll(["$1", "?"]))) == [1, 2]
    ensures P.Texts(P.NoNames, ["$1", "?"]) == ["$1", "$1"]
    ensures !Sound(false, SqliteParams.ReadAll(["$1", "?"]))
  {
    var ts := ["$1", "?"];
    var p := SqliteParams.Name('$', "1");
    assert "$1"[1..] == "1" && "1"[..0] == "" && DigitsValue("1") == 1;
    assert SqliteParams.Read("$1") == p && Dollar(p);
    assert SqliteParams.ReadAll(ts) == [p, SqliteParams.Ask];
    var ps := [p, SqliteParams.Ask];
    assert ps[1..] == [SqliteParams.Ask] && ps[1..][1..] == [];
    var none := SqliteParams.NoParams;
    assert SqliteParams.Slots(SqliteParams.Number(none, p).1, ps[1..]) == [2];
    assert Numbers(PassSlots(true, AssignParam(true, Start, p).1, ps[1..])) == [2];
    assert Numbers(PassSlots(true, Start, ps)) == [1, 2];
    assert ts[1..] == ["?"] && ts[1..][1..] == [];
    assert P.SlotOf(P.NoNames, "$1") == (None, P.NoNames);
    assert Decimal(1) == "1" && P.Dollar(1) == "$1";
    assert P.Texts(P.NoNames, ts[1..]) == ["$1"];
    assert !InPlace(SqliteParams.Number(none, p).1, 0, SqliteParams.Ask);
  }

  function SetDollar(): Update {
    Update([Assignment("a", Placeholder("$1"))], None, [])
  }

  lemma SetDollarTokens()
    ensures UpdateTokens(SetDollar()) == ["$1"] && !Moves(SetDollar()) && Deduplicated(SetDollar()) == SetDollar()
    ensures FillUpdate(SetDollar(), ["$1"]) == SetDollar()
  {
    var u := SetDollar();
    var e := Placeholder("$1");
    assert Values(u.assignments) == [e] && [e][1..] == [];
    assert AllTokens([e]) == ["$1"] && FillAll([e], ["$1"]) == [e];
    NothingOverridden(u.assignments);
    assert ["$1"][..1] == ["$1"] && ["$1"][1..1] == [] && ["$1"][1..] == [];
    assert WithValues(u.assignments, [e]) == u.assignments;
  }

  lemma DollarOne()
    ensures SqliteParams.Token("$1") && SqliteParams.Read("$1") == SqliteParams.Name('$', "1")
    ensures DollarNumber("$1") && DigitsValue("$1"[1..]) == 1
    ensures P.Texts(P.NoNames, ["$1"]) == ["$1"] && P.EndNames(P.NoNames, ["$1"]) == P.NoNames
  {
    assert "$1"[1..] == "1" && "1"[..0] == "" && DigitsValue("1") == 1;
    assert P.SlotOf(P.NoNames, "$1") == (None, P.NoNames);
    assert ["$1"][1..] == [];
  }

  /** SET a = $1: one parameter to SQLite, and no place for it in the list of
      names, so that the caller cannot bind it and PostgreSQL asks for a value
      it is not sent. */
  lemma DollarIsNotBound()
    ensures var u := SetDollar();
      && SqliteParams.AllTokens(UpdateTokens(u)) && Sound(Moves(u), StatementParams(u))
      && SqliteSlots(u) == [1] && EndParams(u).largest == 1
      && Translated(u) == (u, []) && !Accepted(u) && !Bindable(u)
  {
    var u, p := SetDollar(), SqliteParams.Name('$', "1");
    SetDollarTokens();
    DollarOne();
    hide SetDollar, UpdateTokens, Deduplicated, Moves, FillUpdate, P.Texts, P.EndNames;
    assert StatementParams(u) == [p] && [p][1..] == [];
    assert SqliteParams.Number(SqliteParams.NoParams, p).0 == 1;
    assert "$1" in UpdateTokens(u) && !HasValue("$1", 0);
    assert Sound(false, [p]) by {
      assert InPlace(SqliteParams.NoParams, 0, p);
    }
    AcceptedExact(u);
  }
}
