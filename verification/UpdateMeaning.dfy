/** What an UPDATE does to a row, in SQLite and in PostgreSQL, and that the
    dedup pass's rewriting changes neither the rows selected nor the row
    written. */
module UpdateMeaning {
  import opened Common
  import opened Sql
  import opened Dedup

  // ----- three-valued logic ---------------------------------------------

  datatype Truth = False | Unknown | True

  function And3(a: Truth, b: Truth): Truth {
    if a == False || b == False then False else if a == Unknown || b == Unknown then Unknown else True
  }

  function Or3(a: Truth, b: Truth): Truth {
    if a == True || b == True then True else if a == Unknown || b == Unknown then Unknown else False
  }

  /** AND and OR are SQL's, parentheses mean nothing, TRUE is true.  Nothing
      is asked of any other form. */
  ghost predicate Lawful<V(!new)>(m: Model<V>, truth: V -> Truth) {
    && (forall a, b :: truth(m.apply(BinaryOp("AND"), [a, b])) == And3(truth(a), truth(b)))
    && (forall a, b :: truth(m.apply(BinaryOp("OR"), [a, b])) == Or3(truth(a), truth(b)))
    && (forall a :: m.apply(Nested, [a]) == a)
    && truth(m.constant(Bool(true))) == True
  }

  /** A row is selected when the WHERE clause is true, not when it is unknown. */
  predicate Selects<V>(m: Model<V>, truth: V -> Truth, selection: Option<Expr>) {
    selection.Some? ==> truth(Eval(m, selection.value)) == True
  }

  lemma EvalNode1<V>(m: Model<V>, f: Form, a: Expr)
    ensures Eval(m, Node(f, [a])) == m.apply(f, [Eval(m, a)])
  {
    assert EvalAll(m, [a]) == [Eval(m, a)];
  }

  lemma EvalNode2<V>(m: Model<V>, f: Form, a: Expr, b: Expr)
    ensures Eval(m, Node(f, [a, b])) == m.apply(f, [Eval(m, a), Eval(m, b)])
  {
    assert [a, b][1..] == [b];
    assert EvalAll(m, [b]) == [Eval(m, b)];
    assert EvalAll(m, [a, b]) == [Eval(m, a), Eval(m, b)];
  }

  /** The kept predicate is true whatever its value is, NULL included. */
  lemma AlwaysTrueIsTrue<V(!new)>(m: Model<V>, truth: V -> Truth, value: Expr)
    requires Lawful(m, truth)
    ensures truth(Eval(m, AlwaysTrue(value))) == True
  {
    var cast := Node(Cast("TEXT"), [Node(Nested, [value])]);
    var notEmpty := Node(BinaryOp("<>"), [cast, Literal(Text(""))]);
    var either := Node(BinaryOp("OR"), [notEmpty, Literal(Bool(true))]);
    EvalNode1(m, Nested, either);
    EvalNode2(m, BinaryOp("OR"), notEmpty, Literal(Bool(true)));
  }

  lemma KeepParametersSelects<V(!new)>(m: Model<V>, truth: V -> Truth, selection: Option<Expr>, value: Expr)
    requires Lawful(m, truth)
    ensures Selects(m, truth, KeepParameters(selection, value)) <==> Selects(m, truth, selection)
  {
    AlwaysTrueIsTrue(m, truth, value);
    hide AlwaysTrue;
    if selection.Some? {
      EvalNode1(m, Nested, selection.value);
      EvalNode2(m, BinaryOp("AND"), Node(Nested, [selection.value]), AlwaysTrue(value));
    }
  }

  lemma {:induction false} KeepAllSelects<V(!new)>(m: Model<V>, truth: V -> Truth,
                                                   selection: Option<Expr>, values: seq<Expr>)
    requires Lawful(m, truth)
    ensures Selects(m, truth, KeepAll(selection, values)) <==> Selects(m, truth, selection)
    decreases values
  {
    if values != [] {
      KeepParametersSelects(m, truth, selection, values[0]);
      KeepAllSelects(m, truth, KeepParameters(selection, values[0]), values[1..]);
    }
  }

  // ----- the row written ------------------------------------------------

  type Row<V> = map<string, V>

  /** SQLite: every value is computed from the old row, then the assignments
      are made left to right, so the rightmost one of a column wins. */
  function SqliteRow<V>(m: Model<V>, assignments: seq<Assignment>, row: Row<V>): Row<V>
    decreases assignments
  {
    if assignments == [] then row
    else SqliteRow(m, assignments[1..], row[assignments[0].key := Eval(m, assignments[0].value)])
  }

  predicate DistinctTargets(assignments: seq<Assignment>) {
    forall i, j :: 0 <= i < j < |assignments| ==> assignments[i].key != assignments[j].key
  }

  function Targets(assignments: seq<Assignment>): set<string> {
    set i | 0 <= i < |assignments| :: assignments[i].key
  }

  /** PostgreSQL: a statement with two assignments of one column is refused;
      otherwise each column holds its value and the others are unchanged. */
  ghost predicate PgRow<V>(m: Model<V>, assignments: seq<Assignment>, row: Row<V>, after: Row<V>) {
    && DistinctTargets(assignments)
    && after.Keys == row.Keys + Targets(assignments)
    && (forall i :: 0 <= i < |assignments| ==> after[assignments[i].key] == Eval(m, assignments[i].value))
    && (forall k :: k in row.Keys && k !in Targets(assignments) ==> after[k] == row[k])
  }

  lemma TargetsCons(assignments: seq<Assignment>)
    requires assignments != []
    ensures Targets(assignments) == {assignments[0].key} + Targets(assignments[1..])
  {
    forall k | k in Targets(assignments)
      ensures k in {assignments[0].key} + Targets(assignments[1..])
    {
      var i :| 0 <= i < |assignments| && assignments[i].key == k;
      if i > 0 {
        assert assignments[1..][i - 1].key == k;
      }
    }
    forall k | k in Targets(assignments[1..])
      ensures k in Targets(assignments)
    {
      var i :| 0 <= i < |assignments[1..]| && assignments[1..][i].key == k;
      assert assignments[i + 1].key == k;
    }
    assert assignments[0].key in Targets(assignments);
  }

  lemma OverriddenHead(assignments: seq<Assignment>)
    requires assignments != []
    ensures Overridden(assignments, 0) <==> assignments[0].key in Targets(assignments[1..])
  {
    if Overridden(assignments, 0) {
      var j :| 0 < j < |assignments| && assignments[j].key == assignments[0].key;
      assert assignments[1..][j - 1].key == assignments[0].key;
    }
  }

  /** Dropping the overridden assignments keeps the set of columns written. */
  lemma {:induction false} KeptTargets(assignments: seq<Assignment>)
    ensures Targets(Kept(assignments)) == Targets(assignments)
  {
    if assignments != [] {
      KeptTargets(assignments[1..]);
      TargetsCons(assignments);
      OverriddenHead(assignments);
      if !Overridden(assignments, 0) {
        TargetsCons(Kept(assignments));
      }
    }
  }

  lemma DistinctCons(a: Assignment, rest: seq<Assignment>)
    requires DistinctTargets(rest) && a.key !in Targets(rest)
    ensures DistinctTargets([a] + rest)
  {
    forall i, j | 0 <= i < j < |[a] + rest|
      ensures ([a] + rest)[i].key != ([a] + rest)[j].key
    {
      assert ([a] + rest)[j] == rest[j - 1];
      assert rest[j - 1].key in Targets(rest);
    }
  }

  /** Prefixing an assignment of a column the rest does not write. */
  lemma PgRowCons<V>(m: Model<V>, a: Assignment, rest: seq<Assignment>, row: Row<V>, after: Row<V>)
    requires a.key !in Targets(rest)
    requires PgRow(m, rest, row[a.key := Eval(m, a.value)], after)
    ensures PgRow(m, [a] + rest, row, after)
  {
    DistinctCons(a, rest);
    TargetsCons([a] + rest);
    assert ([a] + rest)[1..] == rest;
  }

  /** Forgetting a value the rest overwrites. */
  lemma PgRowForget<V>(m: Model<V>, k: string, v: V, rest: seq<Assignment>, row: Row<V>, after: Row<V>)
    requires k in Targets(rest)
    requires PgRow(m, rest, row[k := v], after)
    ensures PgRow(m, rest, row, after)
  {
  }

  /** The row PostgreSQL writes from the kept assignments is the row SQLite
      writes from all of them. */
  lemma {:induction false} KeptWritesTheSame<V>(m: Model<V>, assignments: seq<Assignment>, row: Row<V>)
    ensures PgRow(m, Kept(assignments), row, SqliteRow(m, assignments, row))
    decreases assignments
  {
    if assignments != [] {
      var a, rest := assignments[0], assignments[1..];
      var v := Eval(m, a.value);
      KeptWritesTheSame(m, rest, row[a.key := v]);
      KeptTargets(rest);
      OverriddenHead(assignments);
      var after := SqliteRow(m, rest, row[a.key := v]);
      if Overridden(assignments, 0) {
        PgRowForget(m, a.key, v, Kept(rest), row, after);
      } else {
        PgRowCons(m, a, Kept(rest), row, after);
      }
    }
  }

  /** The rewritten statement, on the same parameters, selects the same rows
      and writes the same row. */
  lemma CoreKeepsMeaning<V(!new)>(u: Update, m: Model<V>, truth: V -> Truth, row: Row<V>)
    requires Lawful(m, truth)
    ensures Selects(m, truth, Core(u).selection) <==> Selects(m, truth, u.selection)
    ensures PgRow(m, Core(u).assignments, row, SqliteRow(m, u.assignments, row))
  {
    KeepAllSelects(m, truth, u.selection, Dropped(u.assignments));
    KeptWritesTheSame(m, u.assignments, row);
  }

  // ----- SQL's own interpretation is lawful -----------------------------

  datatype Value = VNull | VBool(b: bool) | VText(s: string)

  function ValueTruth(v: Value): Truth {
    match v
    case VNull => Unknown
    case VBool(b) => if b then True else False
    case VText(_) => False
  }

  function FromTruth(t: Truth): Value {
    match t
    case Unknown => VNull
    case True => VBool(true)
    case False => VBool(false)
  }

  function SqlApply(f: Form, vs: seq<Value>): Value {
    match f
    case Nested => if |vs| == 1 then vs[0] else VNull
    case BinaryOp(op) =>
      if |vs| != 2 then VNull
      else if op == "AND" then FromTruth(And3(ValueTruth(vs[0]), ValueTruth(vs[1])))
      else if op == "OR" then FromTruth(Or3(ValueTruth(vs[0]), ValueTruth(vs[1])))
      else if vs[0] == VNull || vs[1] == VNull then VNull
      else VBool(if op == "<>" then vs[0] != vs[1] else vs[0] == vs[1])
    case _ => if |vs| == 1 then vs[0] else VNull
  }

  function SqlConstant(c: Constant): Value {
    match c
    case Null => VNull
    case Bool(b) => VBool(b)
    case Number(d) => VText(d)
    case Text(s) => VText(s)
  }

  function SqlModel(columns: string -> Value, binds: string -> Value): Model<Value> {
    Model(SqlConstant, columns, (parts: seq<string>) => VNull, binds, SqlApply)
  }

  lemma SqlConnects(a: Value, b: Value)
    ensures ValueTruth(SqlApply(BinaryOp("AND"), [a, b])) == And3(ValueTruth(a), ValueTruth(b))
    ensures ValueTruth(SqlApply(BinaryOp("OR"), [a, b])) == Or3(ValueTruth(a), ValueTruth(b))
  {
    assert "AND"[0] != "OR"[0];
  }

  lemma SqlIsLawful(columns: string -> Value, binds: string -> Value)
    ensures Lawful(SqlModel(columns, binds), ValueTruth)
  {
    var m := SqlModel(columns, binds);
    forall a, b
      ensures ValueTruth(m.apply(BinaryOp("AND"), [a, b])) == And3(ValueTruth(a), ValueTruth(b))
      ensures ValueTruth(m.apply(BinaryOp("OR"), [a, b])) == Or3(ValueTruth(a), ValueTruth(b))
    {
      SqlConnects(a, b);
    }
    hide And3, Or3;
  }

  // ----- what can fail --------------------------------------------------

  /** PostgreSQL's types, as far as the rewriting relies on them: a value may be
      a text, a boolean, or both (NULL). */
  datatype Types<!V> = Types(text: V -> bool, boolean: V -> bool)

  /** Evaluation that can fail, failure being None.  A form fails with its
      operands.  Any value can be cast to TEXT and two texts can be compared;
      AND and OR take two booleans and nothing else.  Of every other cast,
      comparison and form nothing is known. */
  ghost predicate Typed<V(!new)>(m: Model<Option<V>>, types: Types<V>) {
    && (forall f, vs :: None in vs ==> m.apply(f, vs) == None)
    && (forall a :: m.apply(Nested, [a]) == a)
    && (forall a :: m.apply(Cast("TEXT"), [Some(a)]).Some? && types.text(m.apply(Cast("TEXT"), [Some(a)]).value))
    && (forall s :: m.constant(Text(s)).Some? && types.text(m.constant(Text(s)).value))
    && (forall b :: m.constant(Bool(b)).Some? && types.boolean(m.constant(Bool(b)).value))
    && (forall a, b :: types.text(a) && types.text(b) ==> IsBoolean(types, m.apply(BinaryOp("<>"), [Some(a), Some(b)])))
    && (forall a, b :: ConnectsBooleans(m, types, "AND", a, b) && ConnectsBooleans(m, types, "OR", a, b))
  }

  predicate IsBoolean<V>(types: Types<V>, v: Option<V>) {
    v.Some? && types.boolean(v.value)
  }

  predicate ConnectsBooleans<V(!new)>(m: Model<Option<V>>, types: Types<V>, op: string, a: V, b: V) {
    if types.boolean(a) && types.boolean(b) then IsBoolean(types, m.apply(BinaryOp(op), [Some(a), Some(b)]))
    else m.apply(BinaryOp(op), [Some(a), Some(b)]) == None
  }

  /** A WHERE clause must evaluate, and to a boolean. */
  predicate WhereFails<V>(m: Model<Option<V>>, types: Types<V>, selection: Option<Expr>) {
    selection.Some? && !IsBoolean(types, Eval(m, selection.value))
  }

  /** One of the values fails. */
  predicate SomeFails<V>(m: Model<Option<V>>, values: seq<Expr>) {
    exists i :: 0 <= i < |values| && Eval(m, values[i]) == None
  }

  lemma {:induction false} SomeFailsIs<V>(m: Model<Option<V>>, values: seq<Expr>)
    ensures SomeFails(m, values) <==> None in EvalAll(m, values)
  {
    if values != [] {
      SomeFailsIs(m, values[1..]);
      hide Eval;
      assert EvalAll(m, values) == [Eval(m, values[0])] + EvalAll(m, values[1..]);
      assert forall i :: 0 <= i < |values[1..]| ==> values[1..][i] == values[i + 1];
      assert forall i :: 1 <= i < |values| ==> values[i] == values[1..][i - 1];
    }
  }

  /** One that holds a placeholder does. */
  predicate SomeParamFails<V>(m: Model<Option<V>>, values: seq<Expr>) {
    exists i :: 0 <= i < |values| && Tokens(values[i]) != [] && Eval(m, values[i]) == None
  }

  lemma AlwaysTrueEval<V>(m: Model<V>, value: Expr)
    ensures var cast := m.apply(Cast("TEXT"), [m.apply(Nested, [Eval(m, value)])]);
      var notEmpty := m.apply(BinaryOp("<>"), [cast, m.constant(Text(""))]);
      Eval(m, AlwaysTrue(value)) == m.apply(Nested, [m.apply(BinaryOp("OR"), [notEmpty, m.constant(Bool(true))])])
  {
    var nested := Node(Nested, [value]);
    var cast := Node(Cast("TEXT"), [nested]);
    var notEmpty := Node(BinaryOp("<>"), [cast, Literal(Text(""))]);
    var either := Node(BinaryOp("OR"), [notEmpty, Literal(Bool(true))]);
    EvalNode1(m, Nested, value);
    EvalNode1(m, Cast("TEXT"), nested);
    EvalNode2(m, BinaryOp("<>"), cast, Literal(Text("")));
    EvalNode2(m, BinaryOp("OR"), notEmpty, Literal(Bool(true)));
    EvalNode1(m, Nested, either);
  }

  lemma NestedSame<V(!new)>(m: Model<Option<V>>, types: Types<V>, a: Option<V>)
    requires Typed(m, types)
    ensures m.apply(Nested, [a]) == a
    ensures m.constant(Text("")).Some? && types.text(m.constant(Text("")).value)
    ensures IsBoolean(types, m.constant(Bool(true)))
  {
  }

  /** The kept predicate is a boolean unless its value fails. */
  lemma AlwaysTrueFails<V(!new)>(m: Model<Option<V>>, types: Types<V>, value: Expr)
    requires Typed(m, types)
    ensures IsBoolean(types, Eval(m, AlwaysTrue(value))) <==> Eval(m, value).Some?
  {
    hide Eval, AlwaysTrue, Typed;
    AlwaysTrueEval(m, value);
    var v := Eval(m, value);
    NestedSame(m, types, v);
    CastFails(m, types, v);
    var c := m.apply(Cast("TEXT"), [v]);
    CompareFails(m, types, c, m.constant(Text("")));
    var n := m.apply(BinaryOp("<>"), [c, m.constant(Text(""))]);
    ConnectFails(m, types, "OR", n, m.constant(Bool(true)));
    NestedSame(m, types, m.apply(BinaryOp("OR"), [n, m.constant(Bool(true))]));
  }

  lemma CastFails<V(!new)>(m: Model<Option<V>>, types: Types<V>, a: Option<V>)
    requires Typed(m, types)
    ensures var r := m.apply(Cast("TEXT"), [a]);
      (a.None? ==> r.None?) && (a.Some? ==> r.Some? && types.text(r.value))
  {
  }

  lemma CompareFails<V(!new)>(m: Model<Option<V>>, types: Types<V>, a: Option<V>, b: Option<V>)
    requires Typed(m, types) && (a.Some? ==> types.text(a.value)) && b.Some? && types.text(b.value)
    ensures var r := m.apply(BinaryOp("<>"), [a, b]);
      (a.None? ==> r.None?) && (a.Some? ==> IsBoolean(types, r))
  {
  }

  lemma ConnectFails<V(!new)>(m: Model<Option<V>>, types: Types<V>, op: string, a: Option<V>, b: Option<V>)
    requires Typed(m, types) && op in {"AND", "OR"}
    ensures var r := m.apply(BinaryOp(op), [a, b]);
      && (IsBoolean(types, r) <==> IsBoolean(types, a) && IsBoolean(types, b))
      && (r.Some? ==> IsBoolean(types, r))
  {
    if a.Some? && b.Some? {
      assert ConnectsBooleans(m, types, op, a.value, b.value);
    }
  }

  lemma KeepParametersFails<V(!new)>(m: Model<Option<V>>, types: Types<V>, selection: Option<Expr>, value: Expr)
    requires Typed(m, types)
    ensures WhereFails(m, types, KeepParameters(selection, value))
      <==> WhereFails(m, types, selection) || (Tokens(value) != [] && Eval(m, value) == None)
  {
    AlwaysTrueFails(m, types, value);
    hide AlwaysTrue;
    if selection.Some? {
      var nested := Node(Nested, [selection.value]);
      EvalNode1(m, Nested, selection.value);
      EvalNode2(m, BinaryOp("AND"), nested, AlwaysTrue(value));
      NestedSame(m, types, Eval(m, selection.value));
      hide Eval, Tokens, Typed;
      ConnectFails(m, types, "AND", Eval(m, nested), Eval(m, AlwaysTrue(value)));
    }
  }

  lemma {:induction false} KeepAllFails<V(!new)>(m: Model<Option<V>>, types: Types<V>,
                                                 selection: Option<Expr>, values: seq<Expr>)
    requires Typed(m, types)
    ensures WhereFails(m, types, KeepAll(selection, values))
      <==> WhereFails(m, types, selection) || SomeParamFails(m, values)
    decreases values
  {
    if values != [] {
      hide Typed, WhereFails, KeepParameters, SomeParamFails;
      KeepParametersFails(m, types, selection, values[0]);
      KeepAllFails(m, types, KeepParameters(selection, values[0]), values[1..]);
      SomeParamFailsCons(m, values);
    }
  }

  lemma SomeParamFailsCons<V>(m: Model<Option<V>>, values: seq<Expr>)
    requires values != []
    ensures SomeParamFails(m, values)
      <==> (Tokens(values[0]) != [] && Eval(m, values[0]) == None) || SomeParamFails(m, values[1..])
  {
    hide Eval, Tokens;
    var rest := values[1..];
    assert forall i :: 0 <= i < |rest| ==> rest[i] == values[i + 1];
    assert forall i :: 1 <= i < |values| ==> values[i] == rest[i - 1];
  }

  /** The WHERE clause of the rewritten statement fails exactly when that of the
      original does or an overridden value that holds a placeholder does. */
  lemma CoreFailsOnly<V(!new)>(u: Update, m: Model<Option<V>>, types: Types<V>)
    requires Typed(m, types)
    ensures WhereFails(m, types, Core(u).selection)
      <==> WhereFails(m, types, u.selection) || SomeParamFails(m, Dropped(u.assignments))
  {
    KeepAllFails(m, types, u.selection, Dropped(u.assignments));
  }

  /** A statement fails with its WHERE clause, a value it assigns or one it
      returns. */
  predicate Fails<V>(m: Model<Option<V>>, types: Types<V>, u: Update) {
    WhereFails(m, types, u.selection) || SomeFails(m, Values(u.assignments)) || SomeFails(m, u.returning)
  }

  lemma {:induction false} KeptOrDroppedFrom(assignments: seq<Assignment>, e: Expr)
    ensures e in Values(Kept(assignments)) || e in Dropped(assignments) ==> e in Values(assignments)
  {
    if assignments != [] {
      var a, rest := assignments[0], assignments[1..];
      KeptOrDroppedFrom(rest, e);
      ValuesCons(a, rest);
      ValuesCons(a, Kept(rest));
      assert assignments == [a] + rest;
    }
  }

  lemma ValuesCons(a: Assignment, rest: seq<Assignment>)
    ensures Values([a] + rest) == [a.value] + Values(rest)
  {
  }

  /** It fails only where the original does. */
  lemma CoreFails<V(!new)>(u: Update, m: Model<Option<V>>, types: Types<V>)
    requires Typed(m, types)
    ensures Fails(m, types, Core(u)) ==> Fails(m, types, u)
  {
    CoreFailsOnly(u, m, types);
    hide Typed, WhereFails, Eval, Kept, Dropped, Tokens, KeepAll;
    if SomeParamFails(m, Dropped(u.assignments)) {
      var i :| 0 <= i < |Dropped(u.assignments)| && Eval(m, Dropped(u.assignments)[i]) == None;
      KeptOrDroppedFrom(u.assignments, Dropped(u.assignments)[i]);
    }
    if SomeFails(m, Values(Kept(u.assignments))) {
      var i :| 0 <= i < |Values(Kept(u.assignments))| && Eval(m, Values(Kept(u.assignments))[i]) == None;
      KeptOrDroppedFrom(u.assignments, Values(Kept(u.assignments))[i]);
    }
  }

  // ----- the text is read as the tree -----------------------------------

  /** How tightly an expression holds together when it is written out: OR least,
      then AND, then the operators and tests, then what has its own brackets. */
  function Rank(e: Expr): nat {
    match e
    case Node(form, _) =>
      (match form
       case BinaryOp(op) => if op == "OR" then 1 else if op == "AND" then 2 else 3
       case UnaryOp(_) => 3
       case IsTest(_) => 3
       case Collate(_) => 3
       case IsDistinctFrom(_) => 3
       case InList(_) => 3
       case InSubquery(_, _) => 3
       case Between(_) => 3
       case Match(_, _) => 3
       case _ => 4)
    case _ => 4
  }

  /** Written without brackets of its own, every AND and OR is read back with the
      operands it has. */
  predicate Grouped(e: Expr)
    decreases e, 1
  {
    match e
    case Node(form, es) =>
      && AllGrouped(es)
      && (form.BinaryOp? && |es| == 2 ==>
            Rank(es[0]) >= Rank(e) && Rank(es[1]) >= Min(Rank(e) + 1, 3))
    case _ => true
  }

  predicate AllGrouped(es: seq<Expr>)
    decreases es, 0
  {
    es == [] || (Grouped(es[0]) && AllGrouped(es[1..]))
  }

  lemma Grouped1(form: Form, a: Expr)
    requires Grouped(a)
    ensures Grouped(Node(form, [a]))
  {
    assert [a][1..] == [];
  }

  lemma Grouped2(form: Form, a: Expr, b: Expr)
    requires Grouped(a) && Grouped(b)
    requires form.BinaryOp? ==> Rank(a) >= Rank(Node(form, [a, b])) && Rank(b) >= Min(Rank(Node(form, [a, b])) + 1, 3)
    ensures Grouped(Node(form, [a, b]))
  {
    assert [a, b][1..] == [b] && [b][1..] == [];
    assert AllGrouped([b]) && AllGrouped([a, b]);
  }

  lemma AlwaysTrueGrouped(value: Expr)
    requires Grouped(value)
    ensures Grouped(AlwaysTrue(value)) && Rank(AlwaysTrue(value)) == 4
  {
    hide Grouped;
    var nested := Node(Nested, [value]);
    var cast := Node(Cast("TEXT"), [nested]);
    var notEmpty := Node(BinaryOp("<>"), [cast, Literal(Text(""))]);
    var either := Node(BinaryOp("OR"), [notEmpty, Literal(Bool(true))]);
    Grouped1(Nested, value);
    Grouped1(Cast("TEXT"), nested);
    LeavesGrouped();
    assert "<>"[0] != "OR"[0] && "<>"[0] != "AND"[0];
    Grouped2(BinaryOp("<>"), cast, Literal(Text("")));
    Grouped2(BinaryOp("OR"), notEmpty, Literal(Bool(true)));
    Grouped1(Nested, either);
  }

  lemma LeavesGrouped()
    ensures Grouped(Literal(Text(""))) && Grouped(Literal(Bool(true)))
  {
  }

  lemma {:induction false} KeepAllGrouped(selection: Option<Expr>, values: seq<Expr>)
    requires (selection.Some? ==> Grouped(selection.value)) && forall v :: v in values ==> Grouped(v)
    ensures var kept := KeepAll(selection, values); kept.Some? ==> Grouped(kept.value)
    decreases values
  {
    hide Grouped, AlwaysTrue;
    if values != [] {
      AlwaysTrueGrouped(values[0]);
      if selection.Some? {
        Grouped1(Nested, selection.value);
        Grouped2(BinaryOp("AND"), Node(Nested, [selection.value]), AlwaysTrue(values[0]));
      }
      KeepAllGrouped(KeepParameters(selection, values[0]), values[1..]);
    }
  }

  /** What is put in the WHERE clause does not regroup it, nor is regrouped by
      it. */
  lemma CoreIsGrouped(u: Update)
    requires (u.selection.Some? ==> Grouped(u.selection.value)) && forall v :: v in Values(u.assignments) ==> Grouped(v)
    ensures Core(u).selection.Some? ==> Grouped(Core(u).selection.value)
  {
    hide Grouped;
    forall v | v in Dropped(u.assignments)
      ensures Grouped(v)
    {
      KeptOrDroppedFrom(u.assignments, v);
    }
    KeepAllGrouped(u.selection, Dropped(u.assignments));
  }

  // ----- SQL's own values are typed so ----------------------------------

  function SqlTypes(): Types<Value> {
    Types((v: Value) => v.VNull? || v.VText?, (v: Value) => v.VNull? || v.VBool?)
  }

  function TypedApply(f: Form, vs: seq<Value>): Option<Value> {
    match f
    case Nested => if |vs| == 1 then Some(vs[0]) else None
    case Cast(t) =>
      if |vs| != 1 || (t != "TEXT" && vs[0] != VNull) then None
      else Some(if vs[0].VBool? then VText(if vs[0].b then "true" else "false") else vs[0])
    case BinaryOp(op) =>
      if |vs| != 2 then None
      else if op == "AND" || op == "OR" then
        if SqlTypes().boolean(vs[0]) && SqlTypes().boolean(vs[1]) then Some(SqlApply(f, vs)) else None
      else if op == "<>" && SqlTypes().text(vs[0]) && SqlTypes().text(vs[1]) then Some(SqlApply(f, vs))
      else None
    case _ => None
  }

  function Present(vs: seq<Option<Value>>): (r: seq<Value>)
    requires None !in vs
    ensures |r| == |vs| && forall i :: 0 <= i < |vs| ==> vs[i] == Some(r[i])
  {
    if vs == [] then [] else [vs[0].value] + Present(vs[1..])
  }

  function TypedModel(columns: string -> Option<Value>, binds: string -> Option<Value>): Model<Option<Value>> {
    Model(
      (c: Constant) => Some(SqlConstant(c)),
      columns, (parts: seq<string>) => None, binds,
      (f: Form, vs: seq<Option<Value>>) => if None in vs then None else TypedApply(f, Present(vs)))
  }

  lemma TypedApplies(a: Value, b: Value)
    ensures TypedApply(Nested, [a]) == Some(a)
    ensures var r := TypedApply(Cast("TEXT"), [a]); r.Some? && SqlTypes().text(r.value)
    ensures SqlTypes().text(a) && SqlTypes().text(b) ==> IsBoolean(SqlTypes(), TypedApply(BinaryOp("<>"), [a, b]))
  {
    assert "<>"[0] != "AND"[0] && "<>"[0] != "OR"[0];
  }

  lemma TypedConnects(op: string, a: Value, b: Value)
    requires op in {"AND", "OR"}
    ensures var r := TypedApply(BinaryOp(op), [a, b]);
      if SqlTypes().boolean(a) && SqlTypes().boolean(b) then IsBoolean(SqlTypes(), r) else r == None
  {
    assert "AND"[0] != "OR"[0];
  }

  lemma PresentOne(a: Value, b: Value)
    ensures Present([Some(a)]) == [a] && Present([Some(a), Some(b)]) == [a, b]
  {
  }

  lemma TypedAt(columns: string -> Option<Value>, binds: string -> Option<Value>, a: Value, b: Value)
    ensures var m, types := TypedModel(columns, binds), SqlTypes();
      && m.apply(Cast("TEXT"), [Some(a)]).Some? && types.text(m.apply(Cast("TEXT"), [Some(a)]).value)
      && (types.text(a) && types.text(b) ==> IsBoolean(types, m.apply(BinaryOp("<>"), [Some(a), Some(b)])))
      && ConnectsBooleans(m, types, "AND", a, b) && ConnectsBooleans(m, types, "OR", a, b)
  {
    hide TypedApply, Present;
    PresentOne(a, b);
    TypedApplies(a, b);
    TypedConnects("AND", a, b);
    TypedConnects("OR", a, b);
  }

  lemma TypedLeaves(columns: string -> Option<Value>, binds: string -> Option<Value>, a: Option<Value>, c: Constant)
    ensures var m, types := TypedModel(columns, binds), SqlTypes();
      && m.apply(Nested, [a]) == a && m.constant(c).Some?
      && (c.Text? ==> types.text(m.constant(c).value)) && (c.Bool? ==> types.boolean(m.constant(c).value))
  {
    hide TypedApply, Present;
    if a.Some? {
      PresentOne(a.value, VNull);
      TypedApplies(a.value, VNull);
    }
  }

  lemma TypedStrict(columns: string -> Option<Value>, binds: string -> Option<Value>, f: Form, vs: seq<Option<Value>>)
    ensures None in vs ==> TypedModel(columns, binds).apply(f, vs) == None
  {
  }

  /** SQL's own values, with every cast to a type other than TEXT refused, are
      typed so. */
  lemma SqlIsTyped(columns: string -> Option<Value>, binds: string -> Option<Value>)
    ensures Typed(TypedModel(columns, binds), SqlTypes())
  {
    var m, types := TypedModel(columns, binds), SqlTypes();
    hide TypedModel, SqlTypes, IsBoolean, ConnectsBooleans;
    forall f, vs | None in vs
      ensures m.apply(f, vs) == None
    {
      TypedStrict(columns, binds, f, vs);
    }
    forall a: Option<Value>
      ensures m.apply(Nested, [a]) == a
    {
      TypedLeaves(columns, binds, a, Null);
    }
    forall s
      ensures m.constant(Text(s)).Some? && types.text(m.constant(Text(s)).value)
    {
      TypedLeaves(columns, binds, None, Text(s));
    }
    forall b
      ensures m.constant(Bool(b)).Some? && types.boolean(m.constant(Bool(b)).value)
    {
      TypedLeaves(columns, binds, None, Bool(b));
    }
    forall a: Value
      ensures m.apply(Cast("TEXT"), [Some(a)]).Some? && types.text(m.apply(Cast("TEXT"), [Some(a)]).value)
    {
      TypedAt(columns, binds, a, a);
    }
    forall a, b
      ensures types.text(a) && types.text(b) ==> IsBoolean(types, m.apply(BinaryOp("<>"), [Some(a), Some(b)]))
    {
      TypedAt(columns, binds, a, b);
    }
    forall a, b
      ensures ConnectsBooleans(m, types, "AND", a, b) && ConnectsBooleans(m, types, "OR", a, b)
    {
      TypedAt(columns, binds, a, b);
    }
  }
}
