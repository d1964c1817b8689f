/** The part of sqlparser's expression tree the rewriting passes look at, its
    placeholders in visiting order, and what an expression evaluates to.

    A node other than a leaf is a form and its operands, the operands in the
    order sqlparser's visitor reaches them.  Everything about a node that is
    no operand (an operator, a cast's type, the text of a subquery) is in the
    form. */
module Sql {
  import opened Common

  datatype Constant =
    | Null
    | Bool(b: bool)
    | Number(digits: string)
    | Text(s: string)

  datatype Form =
    | BinaryOp(op: string)
    | UnaryOp(op: string)
    | Nested
    | Cast(dataType: string)
    | IsTest(test: string)                 // IS [NOT] NULL / TRUE / FALSE
    | Collate(collation: string)
    | IsDistinctFrom(negated: bool)
    | InList(negated: bool)
    | InSubquery(query: string, negated: bool)
    | Between(negated: bool)
    | Match(op: string, negated: bool)     // LIKE, ILIKE, SIMILAR TO
    | Function(name: string, args: nat)    // arguments, then FILTER, OVER, ...
    | Case(hasOperand: bool, hasElse: bool)
    | Subquery(query: string)              // a scalar subquery or EXISTS
    | OtherForm(kind: string)              // TUPLE, SUBSTRING, TRIM, EXTRACT, ...

  datatype Expr =
    | Literal(constant: Constant)
    | Identifier(name: string)
    | Qualified(parts: seq<string>)
    | Placeholder(token: string)
    | Node(form: Form, operands: seq<Expr>)

  // ----- meaning --------------------------------------------------------

  /** What the leaves denote and what each form computes from its operands.
      Evaluation is total: an operand that would raise an error is outside
      the model. */
  datatype Model<!V> = Model(
    constant: Constant -> V,
    identifier: string -> V,
    qualified: seq<string> -> V,
    param: string -> V,
    apply: (Form, seq<V>) -> V)

  function Eval<V>(m: Model<V>, e: Expr): V
    decreases e, 1
  {
    match e
    case Literal(c) => m.constant(c)
    case Identifier(x) => m.identifier(x)
    case Qualified(parts) => m.qualified(parts)
    case Placeholder(t) => m.param(t)
    case Node(f, es) => m.apply(f, EvalAll(m, es))
  }

  function EvalAll<V>(m: Model<V>, es: seq<Expr>): (vs: seq<V>)
    ensures |vs| == |es|
    decreases es, 0
  {
    if es == [] then [] else [Eval(m, es[0])] + EvalAll(m, es[1..])
  }

  // ----- placeholders ---------------------------------------------------

  /** The placeholders met on a visit, left to right. */
  function Tokens(e: Expr): seq<string>
    decreases e, 1
  {
    match e
    case Placeholder(t) => [t]
    case Node(_, es) => AllTokens(es)
    case _ => []
  }

  function AllTokens(es: seq<Expr>): seq<string>
    decreases es, 0
  {
    if es == [] then [] else Tokens(es[0]) + AllTokens(es[1..])
  }

  /** The expression with its placeholders, left to right, replaced by ts. */
  function Fill(e: Expr, ts: seq<string>): Expr
    requires |ts| == |Tokens(e)|
    decreases e, 1
  {
    match e
    case Placeholder(_) => Placeholder(ts[0])
    case Node(f, es) => Node(f, FillAll(es, ts))
    case _ => e
  }

  function FillAll(es: seq<Expr>, ts: seq<string>): (r: seq<Expr>)
    requires |ts| == |AllTokens(es)|
    ensures |r| == |es|
    decreases es, 0
  {
    if es == [] then []
    else
      var n := |Tokens(es[0])|;
      [Fill(es[0], ts[..n])] + FillAll(es[1..], ts[n..])
  }

  function MapSeq<A, B>(f: A -> B, s: seq<A>): (r: seq<B>)
    ensures |r| == |s| && forall i :: 0 <= i < |s| ==> r[i] == f(s[i])
  {
    seq(|s|, i requires 0 <= i < |s| => f(s[i]))
  }

  /** The expression with every placeholder token t replaced by f(t). */
  function Retoken(e: Expr, f: string -> string): Expr {
    Fill(e, MapSeq(f, Tokens(e)))
  }

  lemma {:induction false} FillTokens(e: Expr, ts: seq<string>)
    requires |ts| == |Tokens(e)|
    ensures Tokens(Fill(e, ts)) == ts
    decreases e, 1
  {
    match e
    case Placeholder(_) =>
    case Node(_, es) => FillAllTokens(es, ts);
    case _ =>
  }

  lemma AllTokensCons(e: Expr, es: seq<Expr>)
    ensures AllTokens([e] + es) == Tokens(e) + AllTokens(es)
  {
    assert ([e] + es)[1..] == es;
  }

  lemma {:induction false} FillAllTokens(es: seq<Expr>, ts: seq<string>)
    requires |ts| == |AllTokens(es)|
    ensures AllTokens(FillAll(es, ts)) == ts
    decreases es, 0
  {
    if es != [] {
      var n := |Tokens(es[0])|;
      FillTokens(es[0], ts[..n]);
      FillAllTokens(es[1..], ts[n..]);
      var r := FillAll(es, ts);
      assert r[0] == Fill(es[0], ts[..n]) && r[1..] == FillAll(es[1..], ts[n..]);
      assert AllTokens(r) == Tokens(r[0]) + AllTokens(r[1..]);
    }
  }

  /** Refilling forgets what was filled in before. */
  lemma {:induction false} Refill(e: Expr, ts: seq<string>, us: seq<string>)
    requires |ts| == |us| == |Tokens(e)|
    ensures |Tokens(Fill(e, ts))| == |us|
    ensures Fill(Fill(e, ts), us) == Fill(e, us)
    decreases e, 1
  {
    FillTokens(e, ts);
    match e
    case Placeholder(_) =>
    case Node(_, es) => RefillAll(es, ts, us);
    case _ =>
  }

  lemma {:induction false} RefillAll(es: seq<Expr>, ts: seq<string>, us: seq<string>)
    requires |ts| == |us| == |AllTokens(es)|
    ensures |AllTokens(FillAll(es, ts))| == |us|
    ensures FillAll(FillAll(es, ts), us) == FillAll(es, us)
    decreases es, 0
  {
    FillAllTokens(es, ts);
    if es != [] {
      var n := |Tokens(es[0])|;
      Refill(es[0], ts[..n], us[..n]);
      RefillAll(es[1..], ts[n..], us[n..]);
      assert FillAll(es, ts)[1..] == FillAll(es[1..], ts[n..]);
    }
  }

  /** Retokening a list retokens its members. */
  lemma {:induction false} RetokenAll(es: seq<Expr>, f: string -> string)
    ensures FillAll(es, MapSeq(f, AllTokens(es))) == MapSeq((e: Expr) => Retoken(e, f), es)
  {
    if es != [] {
      var n, ts := |Tokens(es[0])|, MapSeq(f, AllTokens(es));
      assert ts[..n] == MapSeq(f, Tokens(es[0]));
      assert ts[n..] == MapSeq(f, AllTokens(es[1..]));
      RetokenAll(es[1..], f);
    }
  }

  lemma RetokenNode(form: Form, es: seq<Expr>, f: string -> string)
    ensures Retoken(Node(form, es), f) == Node(form, MapSeq((e: Expr) => Retoken(e, f), es))
  {
    RetokenAll(es, f);
  }

  // ----- UPDATE ---------------------------------------------------------

  /** One SET target.  The key is what identifies the column: its name parts,
      lowercased and joined. */
  datatype Assignment = Assignment(key: string, value: Expr)

  datatype Update = Update(assignments: seq<Assignment>, selection: Option<Expr>, returning: seq<Expr>)

  function Values(assignments: seq<Assignment>): (r: seq<Expr>)
    ensures |r| == |assignments|
  {
    seq(|assignments|, i requires 0 <= i < |assignments| => assignments[i].value)
  }

  function WithValues(assignments: seq<Assignment>, values: seq<Expr>): (r: seq<Assignment>)
    requires |values| == |assignments|
    ensures |r| == |assignments|
  {
    seq(|values|, i requires 0 <= i < |values| => assignments[i].(value := values[i]))
  }

  function SelectionTokens(selection: Option<Expr>): seq<string> {
    if selection.Some? then Tokens(selection.value) else []
  }

  /** The placeholders of a statement in visiting order: SET, WHERE,
      RETURNING. */
  function UpdateTokens(u: Update): seq<string> {
    AllTokens(Values(u.assignments)) + SelectionTokens(u.selection) + AllTokens(u.returning)
  }

  function FillAssignments(assignments: seq<Assignment>, ts: seq<string>): (r: seq<Assignment>)
    requires |ts| == |AllTokens(Values(assignments))|
    ensures |r| == |assignments|
  {
    WithValues(assignments, FillAll(Values(assignments), ts))
  }

  function FillSelection(selection: Option<Expr>, ts: seq<string>): Option<Expr>
    requires |ts| == |SelectionTokens(selection)|
  {
    if selection.Some? then Some(Fill(selection.value, ts)) else None
  }

  function FillUpdate(u: Update, ts: seq<string>): Update
    requires |ts| == |UpdateTokens(u)|
  {
    var a := |AllTokens(Values(u.assignments))|;
    var b := a + |SelectionTokens(u.selection)|;
    Update(
      FillAssignments(u.assignments, ts[..a]),
      FillSelection(u.selection, ts[a..b]),
      FillAll(u.returning, ts[b..]))
  }

  lemma FillAssignmentsTokens(assignments: seq<Assignment>, ts: seq<string>)
    requires |ts| == |AllTokens(Values(assignments))|
    ensures Values(FillAssignments(assignments, ts)) == FillAll(Values(assignments), ts)
    ensures AllTokens(Values(FillAssignments(assignments, ts))) == ts
  {
    FillAllTokens(Values(assignments), ts);
    assert Values(FillAssignments(assignments, ts)) == FillAll(Values(assignments), ts);
  }

  lemma RefillAssignments(assignments: seq<Assignment>, ts: seq<string>, us: seq<string>)
    requires |ts| == |us| == |AllTokens(Values(assignments))|
    ensures |AllTokens(Values(FillAssignments(assignments, ts)))| == |us|
    ensures FillAssignments(FillAssignments(assignments, ts), us) == FillAssignments(assignments, us)
  {
    FillAssignmentsTokens(assignments, ts);
    RefillAll(Values(assignments), ts, us);
  }

  lemma RefillSelection(selection: Option<Expr>, ts: seq<string>, us: seq<string>)
    requires |ts| == |us| == |SelectionTokens(selection)|
    ensures SelectionTokens(FillSelection(selection, ts)) == ts
    ensures FillSelection(FillSelection(selection, ts), us) == FillSelection(selection, us)
  {
    if selection.Some? {
      FillTokens(selection.value, ts);
      Refill(selection.value, ts, us);
    }
  }

  lemma FillUpdateTokens(u: Update, ts: seq<string>)
    requires |ts| == |UpdateTokens(u)|
    ensures UpdateTokens(FillUpdate(u, ts)) == ts
  {
    var a := |AllTokens(Values(u.assignments))|;
    var b := a + |SelectionTokens(u.selection)|;
    FillAssignmentsTokens(u.assignments, ts[..a]);
    RefillSelection(u.selection, ts[a..b], ts[a..b]);
    FillAllTokens(u.returning, ts[b..]);
    assert ts[..a] + ts[a..b] + ts[b..] == ts;
  }

  lemma RefillUpdate(u: Update, ts: seq<string>, us: seq<string>)
    requires |ts| == |us| == |UpdateTokens(u)|
    ensures |UpdateTokens(FillUpdate(u, ts))| == |us|
    ensures FillUpdate(FillUpdate(u, ts), us) == FillUpdate(u, us)
  {
    var a := |AllTokens(Values(u.assignments))|;
    var b := a + |SelectionTokens(u.selection)|;
    FillUpdateTokens(u, ts);
    FillAssignmentsTokens(u.assignments, ts[..a]);
    RefillAssignments(u.assignments, ts[..a], us[..a]);
    RefillSelection(u.selection, ts[a..b], us[a..b]);
    RefillAll(u.returning, ts[b..], us[b..]);
  }
}
