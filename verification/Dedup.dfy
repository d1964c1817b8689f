/** The `dedup` pass: an UPDATE keeps the last assignment of each column, and
    a dropped value's parameters stay, in a conjunct that changes nothing. */
module Dedup {
  import opened Common
  import opened Sql
  import opened Numbering

  // ----- which assignments go -------------------------------------------

  predicate Overridden(assignments: seq<Assignment>, i: int)
    requires 0 <= i < |assignments|
  {
    exists j :: i < j < |assignments| && assignments[j].key == assignments[i].key
  }

  /** One pass from the back finds what is overridden: a key already seen is
      assigned again further on. */
  method DuplicateAssignments(assignments: seq<Assignment>) returns (dropped: seq<nat>)
    ensures forall a, b :: 0 <= a < b < |dropped| ==> dropped[a] > dropped[b]
    ensures forall i :: i in dropped <==> 0 <= i < |assignments| && Overridden(assignments, i)
  {
    var seen: set<string> := {};
    dropped := [];
    var i := |assignments|;
    while i > 0
      invariant 0 <= i <= |assignments|
      invariant seen == set j | i <= j < |assignments| :: assignments[j].key
      invariant forall a :: 0 <= a < |dropped| ==> dropped[a] >= i
      invariant forall a, b :: 0 <= a < b < |dropped| ==> dropped[a] > dropped[b]
      invariant forall j :: j in dropped <==> i <= j < |assignments| && Overridden(assignments, j)
    {
      i := i - 1;
      if assignments[i].key in seen {
        var j :| i < j < |assignments| && assignments[j].key == assignments[i].key;
        dropped := dropped + [i];
      } else {
        seen := seen + {assignments[i].key};
      }
    }
  }

  /** The assignments that stay: the last of each key, in statement order. */
  function Kept(assignments: seq<Assignment>): seq<Assignment> {
    if assignments == [] then []
    else if Overridden(assignments, 0) then Kept(assignments[1..])
    else [assignments[0]] + Kept(assignments[1..])
  }

  /** The values of the others, in statement order. */
  function Dropped(assignments: seq<Assignment>): seq<Expr> {
    if assignments == [] then []
    else if Overridden(assignments, 0) then [assignments[0].value] + Dropped(assignments[1..])
    else Dropped(assignments[1..])
  }

  lemma OverriddenSuffix(assignments: seq<Assignment>, k: nat, i: nat)
    requires k + i < |assignments|
    ensures Overridden(assignments[k..], i) <==> Overridden(assignments, k + i)
  {
    if Overridden(assignments, k + i) {
      var j :| k + i < j < |assignments| && assignments[j].key == assignments[k + i].key;
      assert assignments[k..][j - k].key == assignments[k..][i].key;
    }
    if Overridden(assignments[k..], i) {
      var j :| i < j < |assignments[k..]| && assignments[k..][j].key == assignments[k..][i].key;
      assert assignments[k + j].key == assignments[k + i].key;
    }
  }

  /** A stretch with nothing overridden stays as it is. */
  lemma {:induction false} KeptStretch(assignments: seq<Assignment>, lo: nat, hi: nat)
    requires lo <= hi <= |assignments|
    requires forall i :: lo <= i < hi ==> !Overridden(assignments, i)
    ensures Kept(assignments[lo..]) == assignments[lo..hi] + Kept(assignments[hi..])
    ensures Dropped(assignments[lo..]) == Dropped(assignments[hi..])
    decreases hi - lo
  {
    if lo < hi {
      OverriddenSuffix(assignments, lo, 0);
      KeptStretch(assignments, lo + 1, hi);
      assert assignments[lo..][1..] == assignments[lo + 1..];
      assert assignments[lo..hi] == [assignments[lo]] + assignments[lo + 1..hi];
    }
  }

  function Reversed<T>(s: seq<T>): (r: seq<T>)
    ensures |r| == |s|
    ensures forall i :: 0 <= i < |s| ==> r[i] == s[|s| - 1 - i]
  {
    seq(|s|, i requires 0 <= i < |s| => s[|s| - 1 - i])
  }

  /** One removal: an overridden assignment with nothing overridden between
      it and the part already done. */
  lemma RemoveStep(assignments: seq<Assignment>, d: nat, p: nat)
    requires d < p <= |assignments| && Overridden(assignments, d)
    requires forall i :: d < i < p ==> !Overridden(assignments, i)
    ensures Kept(assignments[d..]) == assignments[d + 1..p] + Kept(assignments[p..])
    ensures Dropped(assignments[d..]) == [assignments[d].value] + Dropped(assignments[p..])
  {
    KeptStretch(assignments, d + 1, p);
    OverriddenSuffix(assignments, d, 0);
    assert assignments[d..][1..] == assignments[d + 1..];
  }

  lemma RemoveFrom(assignments: seq<Assignment>, d: nat, p: nat, kept: seq<Assignment>, values: seq<Expr>)
    requires d < p <= |assignments| && Overridden(assignments, d)
    requires forall i :: d < i < p ==> !Overridden(assignments, i)
    requires kept == assignments[..p] + Kept(assignments[p..])
    requires values == Reversed(Dropped(assignments[p..]))
    ensures kept[..d] + kept[d + 1..] == assignments[..d] + Kept(assignments[d..])
    ensures values + [kept[d].value] == Reversed(Dropped(assignments[d..]))
  {
    RemoveStep(assignments, d, p);
    assert kept[d + 1..] == assignments[d + 1..p] + Kept(assignments[p..]);
  }

  /** The k-th drop counted from the end, |assignments| before the first. */
  function Reached(dropped: seq<nat>, k: nat, start: nat): nat
    requires k <= |dropped|
  {
    if k == 0 then start else dropped[k - 1]
  }

  /** A descending list of exactly the overridden indexes skips none. */
  lemma NoneSkipped(assignments: seq<Assignment>, dropped: seq<nat>, k: nat, i: nat)
    requires forall a, b :: 0 <= a < b < |dropped| ==> dropped[a] > dropped[b]
    requires forall x :: x in dropped <==> 0 <= x < |assignments| && Overridden(assignments, x)
    requires k <= |dropped| && i < Reached(dropped, k, |assignments|) <= |assignments|
    requires k < |dropped| ==> dropped[k] < i
    ensures !Overridden(assignments, i)
  {
    if Overridden(assignments, i) {
      assert i in dropped;
      var a :| 0 <= a < |dropped| && dropped[a] == i;
    }
  }

  /** Taking the overridden ones out one by one leaves exactly what is kept; the
      values taken out, put back in order, are exactly what is dropped. */
  method DedupAssignments(assignments: seq<Assignment>) returns (kept: seq<Assignment>, values: seq<Expr>)
    ensures kept == Kept(assignments) && values == Dropped(assignments)
  {
    // From the back: an index still to come is not shifted.
    var dropped := DuplicateAssignments(assignments);
    kept, values := assignments, [];
    ghost var p: nat := |assignments|;
    assert Dropped(assignments[p..]) == [];
    for k := 0 to |dropped|
      invariant p == Reached(dropped, k, |assignments|) <= |assignments|
      invariant kept == assignments[..p] + Kept(assignments[p..])
      invariant values == Reversed(Dropped(assignments[p..]))
    {
      var d := dropped[k];
      assert d in dropped && d < p;
      forall i | d < i < p
        ensures !Overridden(assignments, i)
      {
        NoneSkipped(assignments, dropped, k, i);
      }
      RemoveFrom(assignments, d, p, kept, values);
      values := values + [kept[d].value];
      kept := kept[..d] + kept[d + 1..];
      p := d;
    }
    forall i | 0 <= i < p
      ensures !Overridden(assignments, i)
    {
      NoneSkipped(assignments, dropped, |dropped|, i);
    }
    KeptStretch(assignments, 0, p);
    assert assignments[0..] == assignments;
    values := Reversed(values);
  }

  // ----- keeping a dropped value's parameters ---------------------------

  /** The conjunct for a value: a comparison that reads it, or true. */
  function AlwaysTrue(value: Expr): Expr {
    var cast := Node(Cast("TEXT"), [Node(Nested, [value])]);
    var notEmpty := Node(BinaryOp("<>"), [cast, Literal(Text(""))]);
    Node(Nested, [Node(BinaryOp("OR"), [notEmpty, Literal(Bool(true))])])
  }

  function KeepParameters(selection: Option<Expr>, value: Expr): Option<Expr> {
    if Tokens(value) == [] then selection
    else if selection.None? then Some(AlwaysTrue(value))
    else Some(Node(BinaryOp("AND"), [Node(Nested, [selection.value]), AlwaysTrue(value)]))
  }

  function KeepAll(selection: Option<Expr>, values: seq<Expr>): Option<Expr>
    decreases values
  {
    if values == [] then selection else KeepAll(KeepParameters(selection, values[0]), values[1..])
  }

  // ----- numbering the statement ----------------------------------------

  lemma {:induction false} Split(st: State, ts: seq<string>, us: seq<string>)
    ensures Texts(st, ts + us) == Texts(st, ts) + Texts(EndState(st, ts), us)
    ensures EndState(st, ts + us) == EndState(EndState(st, ts), us)
    decreases ts
  {
    if ts == [] {
      assert ts + us == us;
    } else {
      assert (ts + us)[1..] == ts[1..] + us;
      Split(Assign(st, ts[0]).1, ts[1..], us);
    }
  }

  /** The counter and the name map the numbering closure updates. */
  class Numberer {
    var next: nat
    var names: map<string, nat>

    function Now(): State
      reads this
    {
      State(next, names)
    }

    constructor ()
      ensures Now() == Start
    {
      next, names := 1, map[];
    }

    method VisitToken(token: string) returns (r: string)
      modifies this
      ensures r == Rewritten(old(Now()), token)
      ensures Now() == Assign(old(Now()), token).1
    {
      r := token;
      if token == "?" {
        r := SlotText(Slot(next, None));
        next := next + 1;
      } else if token != "" && (token[0] == '?' || token[0] == '$') && ParseUsize(token[1..]).Some? {
        var n := ParseUsize(token[1..]).value;
        r := SlotText(Slot(n, None));
        next := Max(next, n + 1);
      } else if token != "" && SqliteParams.IsSigil(token[0]) {
        var name := token[1..];
        if name !in names {
          names := names[name := next];
          next := next + 1;
        }
        r := SlotText(Slot(names[name], Some(name)));
      }
    }

    method VisitExpr(e: Expr) returns (r: Expr)
      modifies this
      ensures r == Fill(e, Texts(old(Now()), Tokens(e)))
      ensures Now() == EndState(old(Now()), Tokens(e))
      decreases e, 1
    {
      match e
      case Placeholder(t) =>
        var text := VisitToken(t);
        r := Placeholder(text);
      case Node(f, es) =>
        var rs := VisitAll(es);
        r := Node(f, rs);
      case _ =>
        r := e;
    }

    method VisitAll(es: seq<Expr>) returns (rs: seq<Expr>)
      modifies this
      ensures rs == FillAll(es, Texts(old(Now()), AllTokens(es)))
      ensures Now() == EndState(old(Now()), AllTokens(es))
      decreases es, 0
    {
      if es == [] {
        return [];
      }
      var head := VisitExpr(es[0]);
      var tail := VisitAll(es[1..]);
      rs := [head] + tail;
      Split(old(Now()), Tokens(es[0]), AllTokens(es[1..]));
    }

    method VisitUpdate(u: Update) returns (r: Update)
      modifies this
      ensures r == FillUpdate(u, Texts(old(Now()), UpdateTokens(u)))
    {
      ghost var st, ts, ss := Now(), AllTokens(Values(u.assignments)), SelectionTokens(u.selection);
      Split(st, ts, ss);
      Split(st, ts + ss, AllTokens(u.returning));
      var values := VisitAll(Values(u.assignments));
      var selection := None;
      if u.selection.Some? {
        var s := VisitExpr(u.selection.value);
        selection := Some(s);
      }
      var returning := VisitAll(u.returning);
      r := Update(WithValues(u.assignments, values), selection, returning);
      ghost var all := Texts(st, UpdateTokens(u));
      assert all[..|ts|] == Texts(st, ts);
      assert all[|ts|..|ts| + |ss|] == Texts(EndState(st, ts), ss);
      assert all[|ts| + |ss|..] == Texts(EndState(st, ts + ss), AllTokens(u.returning));
    }
  }

  /** Every placeholder of the statement as its explicit slot. */
  function NumberPlaceholders(u: Update): Update {
    FillUpdate(u, Texts(Start, UpdateTokens(u)))
  }

  // ----- the pass -------------------------------------------------------

  /** The statement with its overridden assignments moved out of the way. */
  function Core(u: Update): Update {
    u.(assignments := Kept(u.assignments), selection := KeepAll(u.selection, Dropped(u.assignments)))
  }

  /** What the pass makes of a statement: slots are fixed first when a dropped
      value holds a placeholder. */
  function Deduplicated(u: Update): Update {
    if AllTokens(Dropped(u.assignments)) != [] then Core(NumberPlaceholders(u)) else Core(u)
  }

  lemma {:induction false} NothingOverridden(assignments: seq<Assignment>)
    requires forall i :: 0 <= i < |assignments| ==> !Overridden(assignments, i)
    ensures Kept(assignments) == assignments && Dropped(assignments) == []
  {
    KeptStretch(assignments, 0, |assignments|);
    assert assignments[0..] == assignments;
    assert assignments[|assignments|..] == [];
  }

  lemma {:induction false} DroppedTokens(assignments: seq<Assignment>)
    ensures AllTokens(Dropped(assignments)) != [] <==>
            exists i :: 0 <= i < |assignments| && Overridden(assignments, i) && Tokens(assignments[i].value) != []
  {
    if assignments != [] {
      DroppedTokens(assignments[1..]);
      forall i | 0 <= i < |assignments[1..]|
        ensures Overridden(assignments[1..], i) <==> Overridden(assignments, i + 1)
      {
        OverriddenSuffix(assignments, 1, i);
      }
      if i :| 0 <= i < |assignments| && Overridden(assignments, i) && Tokens(assignments[i].value) != [] {
        if i > 0 {
          assert assignments[1..][i - 1] == assignments[i];
        }
      }
      if i :| 0 <= i < |assignments[1..]| && Overridden(assignments[1..], i) && Tokens(assignments[1..][i].value) != [] {
        assert Tokens(assignments[i + 1].value) != [];
      }
    }
  }

  method Transform(u: Update) returns (r: Update)
    ensures r == Deduplicated(u)
  {
    r := u;
    var dropped := DuplicateAssignments(u.assignments);
    DroppedTokens(u.assignments);
    if dropped == [] {
      forall i | 0 <= i < |u.assignments|
        ensures !Overridden(u.assignments, i)
      {
        assert i !in dropped;
      }
      NothingOverridden(u.assignments);
      return;
    }
    if exists i :: i in dropped && Tokens(u.assignments[i].value) != [] {
      var numberer := new Numberer();
      r := numberer.VisitUpdate(u);
    }
    var kept, values := DedupAssignments(r.assignments);
    var selection := r.selection;
    for k := 0 to |values|
      invariant KeepAll(selection, values[k..]) == KeepAll(r.selection, values)
    {
      assert values[k..][1..] == values[k + 1..];
      selection := KeepParameters(selection, values[k]);
    }
    r := r.(assignments := kept, selection := selection);
  }
}
