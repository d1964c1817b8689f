/** `groupby::build_alias_map` and `expand_aliases_in_expr`: projection aliases
    replaced by the expressions they name. */
module AliasExpand {
  import opened Common
  import opened Sql

  datatype SelectItem =
    | UnnamedExpr(expr: Expr)
    | ExprWithAlias(expr: Expr, alias: string)
    | Wildcard(qualifier: string)

  /** Lowercased aliases and what they name, in projection order. */
  type AliasMap = seq<(string, Expr)>

  /** How names are compared: `to_lowercase` of the standard library, of which
      nothing is assumed. */
  type Lower = string -> string

  // ----- the map --------------------------------------------------------

  function Entry(lower: Lower, item: SelectItem): AliasMap {
    match item
    case ExprWithAlias(e, alias) => [(lower(alias), e)]
    case _ => []
  }

  function AliasesOf(lower: Lower, projection: seq<SelectItem>): AliasMap {
    if projection == [] then []
    else Entry(lower, projection[0]) + AliasesOf(lower, projection[1..])
  }

  lemma AliasesFrom(lower: Lower, projection: seq<SelectItem>, n: nat)
    requires n <= |projection|
    ensures AliasesOf(lower, projection[n..]) ==
      if n == |projection| then []
      else Entry(lower, projection[n]) + AliasesOf(lower, projection[n + 1..])
  {
    assert n < |projection| ==> projection[n..][1..] == projection[n + 1..];
  }

  lemma Associates<T>(a: seq<T>, b: seq<T>, c: seq<T>)
    ensures a + (b + c) == a + b + c
  {
  }

  method BuildAliasMap(lower: Lower, projection: seq<SelectItem>) returns (aliases: AliasMap)
    ensures aliases == AliasesOf(lower, projection)
  {
    hide AliasesOf;
    aliases := [];
    assert projection[0..] == projection;
    for n := 0 to |projection|
      invariant aliases + AliasesOf(lower, projection[n..]) == AliasesOf(lower, projection)
    {
      ghost var before, rest := aliases, AliasesOf(lower, projection[n + 1..]);
      AliasesFrom(lower, projection, n);
      Associates(before, Entry(lower, projection[n]), rest);
      match projection[n] {
        case ExprWithAlias(e, alias) => aliases := aliases + [(lower(alias), e)];
        case _ => assert before + [] == before;
      }
    }
    AliasesFrom(lower, projection, |projection|);
  }

  /** What a name stands for: the first entry for it. */
  function Find(aliases: AliasMap, name: string): (r: Option<Expr>)
    ensures r.Some? ==> (name, r.value) in aliases
  {
    if aliases == [] then None
    else if aliases[0].0 == name then Some(aliases[0].1)
    else Find(aliases[1..], name)
  }

  /** The item at n is the first of the projection to carry the alias. */
  ghost predicate FirstAlias(lower: Lower, projection: seq<SelectItem>, name: string, n: nat) {
    && n < |projection| && Carries(lower, projection[n], name)
    && forall i :: 0 <= i < n ==> !Carries(lower, projection[i], name)
  }

  predicate Carries(lower: Lower, item: SelectItem, name: string) {
    item.ExprWithAlias? && lower(item.alias) == lower(name)
  }

  /** A name stands for the first item of the projection aliased so, and for
      nothing when no item is. */
  lemma {:induction false} FindsFirst(lower: Lower, projection: seq<SelectItem>, name: string)
    ensures var r := Find(AliasesOf(lower, projection), lower(name));
      && (r.None? <==> forall i :: 0 <= i < |projection| ==> !Carries(lower, projection[i], name))
      && (r.Some? ==> exists n: nat :: FirstAlias(lower, projection, name, n) && r.value == projection[n].expr)
  {
    if projection != [] {
      var rest := projection[1..];
      var r := Find(AliasesOf(lower, projection), lower(name));
      FindsFirst(lower, rest, name);
      FindEntry(lower, projection[0], AliasesOf(lower, rest), name);
      assert forall i :: 0 <= i < |rest| ==> projection[i + 1] == rest[i];
      if Carries(lower, projection[0], name) {
        assert FirstAlias(lower, projection, name, 0);
      } else {
        assert forall i :: 1 <= i < |projection| ==> projection[i] == rest[i - 1];
        if r.Some? {
          var n: nat :| FirstAlias(lower, rest, name, n) && r.value == rest[n].expr;
          assert FirstAlias(lower, projection, name, n + 1);
        }
      }
    }
  }

  lemma FindEntry(lower: Lower, item: SelectItem, rest: AliasMap, name: string)
    ensures Find(Entry(lower, item) + rest, lower(name))
         == if Carries(lower, item, name) then Some(item.expr) else Find(rest, lower(name))
  {
    if item.ExprWithAlias? {
      assert (Entry(lower, item) + rest)[1..] == rest;
    } else {
      assert Entry(lower, item) + rest == rest;
    }
  }

  // ----- the rewriting --------------------------------------------------

  /** How many operands of a form the rewriter descends into: the arguments of
      a function but no FILTER or OVER, what is sought in a subquery but not
      the subquery, nothing of a form it has no case for. */
  function Reach(form: Form, n: nat): (k: nat)
    ensures k <= n
  {
    match form
    case Function(_, args) => Min(args, n)
    case InSubquery(_, _) => Min(1, n)
    case Subquery(_) => 0
    case OtherForm(_) => 0
    case _ => n
  }

  function Expand(lower: Lower, aliases: AliasMap, e: Expr): Expr
    decreases e, 1
  {
    match e
    case Identifier(x) =>
      var named := Find(aliases, lower(x));
      if named.Some? then named.value else e
    case Node(form, es) => Node(form, ExpandFirst(lower, aliases, es, Reach(form, |es|)))
    case _ => e
  }

  function ExpandFirst(lower: Lower, aliases: AliasMap, es: seq<Expr>, k: nat): (r: seq<Expr>)
    ensures |r| == |es|
    decreases es, 0
  {
    if es == [] || k == 0 then es
    else [Expand(lower, aliases, es[0])] + ExpandFirst(lower, aliases, es[1..], k - 1)
  }

  method ExpandAliases(lower: Lower, aliases: AliasMap, e: Expr) returns (r: Expr)
    ensures r == Expand(lower, aliases, e)
    decreases e
  {
    match e {
      case Identifier(x) =>
        var name := lower(x);
        assert aliases[0..] == aliases;
        for n := 0 to |aliases|
          invariant Find(aliases[n..], name) == Find(aliases, name)
        {
          assert aliases[n..][1..] == aliases[n + 1..];
          if name == aliases[n].0 {
            return aliases[n].1;
          }
        }
        return e;
      case Node(form, es) =>
        var k := Reach(form, |es|);
        var done: seq<Expr> := [];
        assert es[0..] == es;
        for n := 0 to k
          invariant |done| == n
          invariant done + ExpandFirst(lower, aliases, es[n..], k - n) == ExpandFirst(lower, aliases, es, k)
        {
          var operand := ExpandAliases(lower, aliases, es[n]);
          assert es[n..][1..] == es[n + 1..];
          Associates(done, [operand], ExpandFirst(lower, aliases, es[n + 1..], k - n - 1));
          done := done + [operand];
        }
        return Node(form, done + es[k..]);
      case _ =>
        return e;
    }
  }

  // ----- what an alias means --------------------------------------------

  /** How many operands see the aliases: all but those inside a subquery. */
  function Scope(form: Form, n: nat): (k: nat)
    ensures k <= n
  {
    match form
    case InSubquery(_, _) => Min(1, n)
    case Subquery(_) => 0
    case _ => n
  }

  /** Which lowercased names are columns in scope. */
  type Columns = string -> bool

  /** What a name stands for to SQLite, which takes a column before an alias. */
  function Denotes(lower: Lower, column: Columns, aliases: AliasMap, x: string): Option<Expr> {
    if column(lower(x)) then None else Find(aliases, lower(x))
  }

  /** The value of an expression when an alias denotes the value of what it
      names.  What it names sees no aliases. */
  function AliasEval<V>(m: Model<V>, lower: Lower, column: Columns, aliases: AliasMap, e: Expr): V
    decreases e, 1
  {
    match e
    case Literal(c) => m.constant(c)
    case Identifier(x) =>
      var named := Denotes(lower, column, aliases, x);
      if named.Some? then Eval(m, named.value) else m.identifier(x)
    case Qualified(parts) => m.qualified(parts)
    case Placeholder(t) => m.param(t)
    case Node(form, es) => m.apply(form, AliasEvalFirst(m, lower, column, aliases, es, Scope(form, |es|)))
  }

  function AliasEvalFirst<V>(m: Model<V>, lower: Lower, column: Columns, aliases: AliasMap, es: seq<Expr>, k: nat)
    : (vs: seq<V>)
    ensures |vs| == |es|
    decreases es, 0
  {
    if es == [] || k == 0 then EvalAll(m, es)
    else [AliasEval(m, lower, column, aliases, es[0])] + AliasEvalFirst(m, lower, column, aliases, es[1..], k - 1)
  }

  // ----- when expansion is right ----------------------------------------

  /** No alias in scope stands for anything but itself. */
  predicate Plain(lower: Lower, column: Columns, aliases: AliasMap, e: Expr)
    decreases e, 1
  {
    match e
    case Identifier(x) => Denotes(lower, column, aliases, x) in {None, Some(e)}
    case Node(form, es) => PlainFirst(lower, column, aliases, es, Scope(form, |es|))
    case _ => true
  }

  predicate PlainFirst(lower: Lower, column: Columns, aliases: AliasMap, es: seq<Expr>, k: nat)
    decreases es, 0
  {
    es == [] || k == 0
    || (Plain(lower, column, aliases, es[0]) && PlainFirst(lower, column, aliases, es[1..], k - 1))
  }

  /** What the rewriter puts in the place of a name. */
  function Put(lower: Lower, used: AliasMap, x: string): Expr {
    var named := Find(used, lower(x));
    if named.Some? then named.value else Identifier(x)
  }

  /** What SQLite takes the name for. */
  function Meant(lower: Lower, column: Columns, aliases: AliasMap, x: string): Expr {
    var named := Denotes(lower, column, aliases, x);
    if named.Some? then named.value else Identifier(x)
  }

  /** Every alias in scope is one the rewriter descends to, or is plain, and
      for each name it descends to it puts what SQLite takes the name for.  The
      rewriter goes by the aliases it uses, SQLite by all. */
  predicate Reached(lower: Lower, column: Columns, used: AliasMap, aliases: AliasMap, e: Expr)
    decreases e, 1
  {
    match e
    case Identifier(x) => Put(lower, used, x) == Meant(lower, column, aliases, x)
    case Node(form, es) => ReachedFirst(lower, column, used, aliases, es, Reach(form, |es|), Scope(form, |es|))
    case _ => true
  }

  predicate ReachedFirst(lower: Lower, column: Columns, used: AliasMap, aliases: AliasMap,
                         es: seq<Expr>, k: nat, scope: nat)
    decreases es, 0
  {
    if es == [] || scope == 0 then true
    else if k == 0 then PlainFirst(lower, column, aliases, es, scope)
    else
      && Reached(lower, column, used, aliases, es[0])
      && ReachedFirst(lower, column, used, aliases, es[1..], k - 1, scope - 1)
  }

  /** Where the rewriter uses all the aliases, that is: a name that is a column
      is no alias, or the alias of itself. */
  lemma PutsAll(lower: Lower, column: Columns, aliases: AliasMap, x: string)
    ensures Put(lower, aliases, x) == Meant(lower, column, aliases, x)
      <==> column(lower(x)) ==> Find(aliases, lower(x)) in {None, Some(Identifier(x))}
  {
  }

  lemma {:induction false} PlainMeans<V>(m: Model<V>, lower: Lower, column: Columns, aliases: AliasMap, e: Expr)
    requires Plain(lower, column, aliases, e)
    ensures AliasEval(m, lower, column, aliases, e) == Eval(m, e)
    decreases e, 1
  {
    match e
    case Node(form, es) => PlainFirstMeans(m, lower, column, aliases, es, Scope(form, |es|));
    case _ =>
  }

  lemma {:induction false} PlainFirstMeans<V>(m: Model<V>, lower: Lower, column: Columns, aliases: AliasMap,
                                              es: seq<Expr>, k: nat)
    requires PlainFirst(lower, column, aliases, es, k)
    ensures AliasEvalFirst(m, lower, column, aliases, es, k) == EvalAll(m, es)
    decreases es, 0
  {
    if es != [] && k > 0 {
      PlainMeans(m, lower, column, aliases, es[0]);
      PlainFirstMeans(m, lower, column, aliases, es[1..], k - 1);
    }
  }

  /** In every model, the expanded expression has the value the original has
      with its aliases denoting what they name. */
  lemma {:induction false} ExpandMeans<V>(m: Model<V>, lower: Lower, column: Columns, used: AliasMap, aliases: AliasMap,
                                          e: Expr)
    requires Reached(lower, column, used, aliases, e)
    ensures Eval(m, Expand(lower, used, e)) == AliasEval(m, lower, column, aliases, e)
    decreases e, 1
  {
    match e
    case Identifier(x) =>
      assert AliasEval(m, lower, column, aliases, e) == Eval(m, Meant(lower, column, aliases, x));
    case Node(form, es) =>
      ExpandFirstMeans(m, lower, column, used, aliases, es, Reach(form, |es|), Scope(form, |es|));
    case _ =>
  }

  lemma {:induction false} ExpandFirstMeans<V>(m: Model<V>, lower: Lower, column: Columns, used: AliasMap,
                                               aliases: AliasMap, es: seq<Expr>, k: nat, scope: nat)
    requires k <= scope && ReachedFirst(lower, column, used, aliases, es, k, scope)
    ensures EvalAll(m, ExpandFirst(lower, used, es, k)) == AliasEvalFirst(m, lower, column, aliases, es, scope)
    decreases es, 0
  {
    if es != [] && k > 0 {
      ExpandMeans(m, lower, column, used, aliases, es[0]);
      ExpandFirstMeans(m, lower, column, used, aliases, es[1..], k - 1, scope - 1);
      assert ExpandFirst(lower, used, es, k)[1..] == ExpandFirst(lower, used, es[1..], k - 1);
    } else if es != [] && scope > 0 {
      PlainFirstMeans(m, lower, column, aliases, es, scope);
    }
  }

  /** Expressions built only from operators, tests, lists, CASE, and functions
      without FILTER or OVER; of a subquery only what is sought in it. */
  predicate Handled(e: Expr)
    decreases e, 1
  {
    match e
    case Node(form, es) =>
      (match form
       case BinaryOp(_) => HandledAll(es)
       case UnaryOp(_) => HandledAll(es)
       case Nested => HandledAll(es)
       case Cast(_) => HandledAll(es)
       case IsTest(_) => HandledAll(es)
       case Collate(_) => HandledAll(es)
       case IsDistinctFrom(_) => HandledAll(es)
       case InList(_) => HandledAll(es)
       case Between(_) => HandledAll(es)
       case Match(_, _) => HandledAll(es)
       case Case(_, _) => HandledAll(es)
       case Function(_, args) => |es| <= args && HandledAll(es)
       case InSubquery(_, _) => es == [] || Handled(es[0])
       case Subquery(_) => true
       case OtherForm(_) => es == [])
    case _ => true
  }

  predicate HandledAll(es: seq<Expr>)
    decreases es, 0
  {
    es == [] || (Handled(es[0]) && HandledAll(es[1..]))
  }

  /** The operands the rewriter goes into, form by form. */
  lemma ExpandsOperand(lower: Lower, aliases: AliasMap, form: Form, es: seq<Expr>, i: nat)
    requires i < |es|
    ensures var r := Expand(lower, aliases, Node(form, es));
      && r.Node? && r.form == form && |r.operands| == |es|
      && r.operands[i] == match form {
        case Function(_, args) => if i < args then Expand(lower, aliases, es[i]) else es[i]
        case InSubquery(_, _) => if i == 0 then Expand(lower, aliases, es[i]) else es[i]
        case Subquery(_) => es[i]
        case OtherForm(_) => es[i]
        case _ => Expand(lower, aliases, es[i])
      }
  {
    ExpandFirstAt(lower, aliases, es, Reach(form, |es|), i);
  }

  lemma {:induction false} ExpandFirstAt(lower: Lower, aliases: AliasMap, es: seq<Expr>, k: nat, i: nat)
    requires i < |es|
    ensures ExpandFirst(lower, aliases, es, k)[i] == if i < k then Expand(lower, aliases, es[i]) else es[i]
  {
    if k > 0 && i > 0 {
      ExpandFirstAt(lower, aliases, es[1..], k - 1, i - 1);
    }
  }

  /** No alias names a column. */
  ghost predicate NoColumns(column: Columns, aliases: AliasMap) {
    forall a :: a in aliases ==> !column(a.0)
  }

  /** For every name the rewriter puts what SQLite takes it for. */
  ghost predicate Agree(lower: Lower, column: Columns, used: AliasMap, aliases: AliasMap) {
    forall x :: Put(lower, used, x) == Meant(lower, column, aliases, x)
  }

  lemma {:induction false} HandledIsReached(lower: Lower, column: Columns, used: AliasMap, aliases: AliasMap, e: Expr)
    requires Handled(e) && Agree(lower, column, used, aliases)
    ensures Reached(lower, column, used, aliases, e)
    decreases e, 1
  {
    match e
    case Identifier(x) => assert Put(lower, used, x) == Meant(lower, column, aliases, x);
    case Node(form, es) =>
      match form {
        case InSubquery(_, _) =>
          if es != [] {
            HandledIsReached(lower, column, used, aliases, es[0]);
            assert ReachedFirst(lower, column, used, aliases, es[1..], 0, 0);
          }
        case Subquery(_) =>
        case _ => HandledAllIsReached(lower, column, used, aliases, es);
      }
    case _ =>
  }

  lemma {:induction false} HandledAllIsReached(lower: Lower, column: Columns, used: AliasMap, aliases: AliasMap,
                                               es: seq<Expr>)
    requires HandledAll(es) && Agree(lower, column, used, aliases)
    ensures ReachedFirst(lower, column, used, aliases, es, |es|, |es|)
    decreases es, 0
  {
    hide Agree;
    if es != [] {
      HandledIsReached(lower, column, used, aliases, es[0]);
      HandledAllIsReached(lower, column, used, aliases, es[1..]);
    }
  }

  /** The substitution lemma on the forms the rewriter handles, for aliases
      that name no column. */
  lemma Substitution<V>(m: Model<V>, lower: Lower, column: Columns, projection: seq<SelectItem>, e: Expr)
    requires Handled(e) && NoColumns(column, AliasesOf(lower, projection))
    ensures var aliases := AliasesOf(lower, projection);
      Eval(m, Expand(lower, aliases, e)) == AliasEval(m, lower, column, aliases, e)
  {
    var aliases := AliasesOf(lower, projection);
    HandledIsReached(lower, column, aliases, aliases, e);
    ExpandMeans(m, lower, column, aliases, aliases, e);
  }

  // ----- and when it is not ---------------------------------------------

  /** The model in which an expression denotes itself. */
  function Terms(): Model<Expr> {
    Model(c => Literal(c), x => Identifier(x), parts => Qualified(parts), t => Placeholder(t),
          (form, es) => Node(form, es))
  }

  lemma {:induction false} TermsDenote(e: Expr)
    ensures Eval(Terms(), e) == e
    decreases e, 1
  {
    match e
    case Node(_, es) => AllTermsDenote(es);
    case _ =>
  }

  lemma {:induction false} AllTermsDenote(es: seq<Expr>)
    ensures EvalAll(Terms(), es) == es
    decreases es, 0
  {
    if es != [] {
      TermsDenote(es[0]);
      AllTermsDenote(es[1..]);
    }
  }

  lemma {:induction false} PlainIsNeeded(lower: Lower, column: Columns, aliases: AliasMap, e: Expr)
    requires AliasEval(Terms(), lower, column, aliases, e) == e
    ensures Plain(lower, column, aliases, e)
    decreases e, 1
  {
    match e
    case Identifier(x) =>
      if Denotes(lower, column, aliases, x).Some? {
        TermsDenote(Denotes(lower, column, aliases, x).value);
      }
    case Node(form, es) => PlainFirstIsNeeded(lower, column, aliases, es, Scope(form, |es|));
    case _ =>
  }

  lemma {:induction false} PlainFirstIsNeeded(lower: Lower, column: Columns, aliases: AliasMap, es: seq<Expr>, k: nat)
    requires AliasEvalFirst(Terms(), lower, column, aliases, es, k) == es
    ensures PlainFirst(lower, column, aliases, es, k)
    decreases es, 0
  {
    if es != [] && k > 0 {
      var vs := AliasEvalFirst(Terms(), lower, column, aliases, es, k);
      assert vs[0] == AliasEval(Terms(), lower, column, aliases, es[0]);
      assert vs[1..] == AliasEvalFirst(Terms(), lower, column, aliases, es[1..], k - 1);
      PlainIsNeeded(lower, column, aliases, es[0]);
      PlainFirstIsNeeded(lower, column, aliases, es[1..], k - 1);
    }
  }

  lemma {:induction false} ReachedIsNeeded(lower: Lower, column: Columns, used: AliasMap, aliases: AliasMap, e: Expr)
    requires Expand(lower, used, e) == AliasEval(Terms(), lower, column, aliases, e)
    ensures Reached(lower, column, used, aliases, e)
    decreases e, 1
  {
    match e
    case Identifier(x) => TermsDenote(Meant(lower, column, aliases, x));
    case Node(form, es) =>
      ReachedFirstIsNeeded(lower, column, used, aliases, es, Reach(form, |es|), Scope(form, |es|));
    case _ =>
  }

  lemma {:induction false} ReachedFirstIsNeeded(lower: Lower, column: Columns, used: AliasMap, aliases: AliasMap,
                                                es: seq<Expr>, k: nat, scope: nat)
    requires k <= scope
    requires ExpandFirst(lower, used, es, k) == AliasEvalFirst(Terms(), lower, column, aliases, es, scope)
    ensures ReachedFirst(lower, column, used, aliases, es, k, scope)
    decreases es, 0
  {
    if es != [] && k > 0 {
      var xs := ExpandFirst(lower, used, es, k);
      var vs := AliasEvalFirst(Terms(), lower, column, aliases, es, scope);
      assert xs[0] == vs[0] && xs[1..] == vs[1..];
      assert xs[1..] == ExpandFirst(lower, used, es[1..], k - 1);
      assert vs[1..] == AliasEvalFirst(Terms(), lower, column, aliases, es[1..], scope - 1);
      ReachedIsNeeded(lower, column, used, aliases, es[0]);
      ReachedFirstIsNeeded(lower, column, used, aliases, es[1..], k - 1, scope - 1);
    } else if es != [] && scope > 0 {
      PlainFirstIsNeeded(lower, column, aliases, es, scope);
    }
  }

  ghost predicate RightInEveryModel(lower: Lower, column: Columns, used: AliasMap, aliases: AliasMap, e: Expr) {
    forall m: Model<Expr> :: Eval(m, Expand(lower, used, e)) == AliasEval(m, lower, column, aliases, e)
  }

  /** Expansion by some aliases means what SQLite means by all of them, in every
      model, exactly when no alias is missed and each name met stands for the
      same expression to both. */
  lemma ExpandIsExact(lower: Lower, column: Columns, used: AliasMap, aliases: AliasMap, e: Expr)
    ensures RightInEveryModel(lower, column, used, aliases, e) <==> Reached(lower, column, used, aliases, e)
  {
    if Reached(lower, column, used, aliases, e) {
      forall m: Model<Expr>
        ensures Eval(m, Expand(lower, used, e)) == AliasEval(m, lower, column, aliases, e)
      {
        ExpandMeans(m, lower, column, used, aliases, e);
      }
    }
    if RightInEveryModel(lower, column, used, aliases, e) {
      TermsDenote(Expand(lower, used, e));
      assert Eval(Terms(), Expand(lower, used, e)) == AliasEval(Terms(), lower, column, aliases, e);
      ReachedIsNeeded(lower, column, used, aliases, e);
    }
  }

  /** An alias in a form the rewriter has no case for is left, and PostgreSQL
      then reads a column of that name. */
  lemma TupleIsMissed()
    ensures var e := Node(OtherForm("TUPLE"), [Identifier("cnt")]);
      var aliases := [("cnt", Node(Function("count", 1), [Identifier("id")]))];
      Expand(s => s, aliases, e) == e && !RightInEveryModel(s => s, _ => false, aliases, aliases, e)
  {
    var e := Node(OtherForm("TUPLE"), [Identifier("cnt")]);
    var aliases := [("cnt", Node(Function("count", 1), [Identifier("id")]))];
    assert e.operands[0] == Identifier("cnt");
    ExpandIsExact(s => s, _ => false, aliases, aliases, e);
  }

  /** SELECT max(x) AS x … HAVING x: SQLite compares the column, the rewritten
      statement the aggregate. */
  lemma ColumnIsReplaced()
    ensures var aliases := [("x", Node(Function("max", 1), [Identifier("x")]))];
      && Expand(s => s, aliases, Identifier("x")) == aliases[0].1
      && !RightInEveryModel(s => s, s => s == "x", aliases, aliases, Identifier("x"))
  {
    var aliases := [("x", Node(Function("max", 1), [Identifier("x")]))];
    assert Find(aliases, "x") == Some(aliases[0].1);
    ExpandIsExact(s => s, s => s == "x", aliases, aliases, Identifier("x"));
  }

  // ----- HAVING is expanded twice ---------------------------------------

  /** What the query pass keeps of the map. */
  function Kept(aliases: AliasMap, keep: (string, Expr) -> bool): AliasMap {
    if aliases == [] then []
    else (if keep(aliases[0].0, aliases[0].1) then [aliases[0]] else []) + Kept(aliases[1..], keep)
  }

  lemma {:induction false} KeptOnly(aliases: AliasMap, keep: (string, Expr) -> bool, name: string)
    ensures Find(aliases, name).None? ==> Find(Kept(aliases, keep), name).None?
    ensures (forall e :: !keep(name, e)) ==> Find(Kept(aliases, keep), name).None?
  {
    if aliases != [] {
      KeptOnly(aliases[1..], keep, name);
      if keep(aliases[0].0, aliases[0].1) {
        assert Kept(aliases, keep)[1..] == Kept(aliases[1..], keep);
      } else {
        assert Kept(aliases, keep) == Kept(aliases[1..], keep);
      }
    }
  }

  predicate SameName(alias: string, e: Expr) {
    match e
    case Identifier(x) => Fold(x) == Fold(alias)
    case Qualified(parts) => parts != [] && Fold(parts[|parts| - 1]) == Fold(alias)
    case _ => false
  }

  /** The aliases the query rule uses: those not called what they name, and no
      column it knows. */
  function QueryKeeps(known: Columns): (string, Expr) -> bool {
    (alias, e) => !SameName(alias, e) && !known(alias)
  }

  lemma {:induction false} FindKept(column: Columns, aliases: AliasMap, keep: (string, Expr) -> bool, name: string)
    requires forall a :: a in aliases ==> (keep(a.0, a.1) <==> !column(a.0))
    ensures Find(Kept(aliases, keep), name) == if column(name) then None else Find(aliases, name)
  {
    if aliases != [] {
      FindKept(column, aliases[1..], keep, name);
      if keep(aliases[0].0, aliases[0].1) {
        assert Kept(aliases, keep)[1..] == Kept(aliases[1..], keep);
      } else {
        assert Kept(aliases, keep) == Kept(aliases[1..], keep);
      }
    }
  }

  /** A rule that drops just the aliases that are columns means on the handled
      forms what SQLite means by all the aliases. */
  lemma FilteredSubstitution<V>(m: Model<V>, lower: Lower, column: Columns, aliases: AliasMap,
                                keep: (string, Expr) -> bool, e: Expr)
    requires Handled(e) && forall a :: a in aliases ==> (keep(a.0, a.1) <==> !column(a.0))
    ensures Eval(m, Expand(lower, Kept(aliases, keep), e)) == AliasEval(m, lower, column, aliases, e)
  {
    forall x
      ensures Put(lower, Kept(aliases, keep), x) == Meant(lower, column, aliases, x)
    {
      FindKept(column, aliases, keep, lower(x));
    }
    HandledIsReached(lower, column, Kept(aliases, keep), aliases, e);
    ExpandMeans(m, lower, column, Kept(aliases, keep), aliases, e);
  }

  /** The query rule means what SQLite means when the columns among the aliases
      are those it knows and those called what they name. */
  lemma QueryRuleRight<V>(m: Model<V>, lower: Lower, column: Columns, known: Columns, projection: seq<SelectItem>, e: Expr)
    requires Handled(e)
    requires forall a :: a in AliasesOf(lower, projection) ==> (column(a.0) <==> known(a.0) || SameName(a.0, a.1))
    ensures var aliases := AliasesOf(lower, projection);
      Eval(m, Expand(lower, Kept(aliases, QueryKeeps(known)), e)) == AliasEval(m, lower, column, aliases, e)
  {
    FilteredSubstitution(m, lower, column, AliasesOf(lower, projection), QueryKeeps(known), e);
  }

  /** WHERE passes through the query rule alone.  It is right on every handled
      expression exactly when the aliases it uses and those SQLite sees make the
      same of every name. */
  lemma QueryRuleExact(lower: Lower, column: Columns, known: Columns, projection: seq<SelectItem>)
    ensures var aliases := AliasesOf(lower, projection);
      var kept := Kept(aliases, QueryKeeps(known));
      (forall e :: Handled(e) ==> RightInEveryModel(lower, column, kept, aliases, e))
      <==> Agree(lower, column, kept, aliases)
  {
    var aliases := AliasesOf(lower, projection);
    var kept := Kept(aliases, QueryKeeps(known));
    if Agree(lower, column, kept, aliases) {
      forall e | Handled(e)
        ensures RightInEveryModel(lower, column, kept, aliases, e)
      {
        HandledIsReached(lower, column, kept, aliases, e);
        ExpandIsExact(lower, column, kept, aliases, e);
      }
    }
    if forall e :: Handled(e) ==> RightInEveryModel(lower, column, kept, aliases, e) {
      forall x
        ensures Put(lower, kept, x) == Meant(lower, column, aliases, x)
      {
        assert Handled(Identifier(x));
        ExpandIsExact(lower, column, kept, aliases, Identifier(x));
      }
    }
  }

  /** SELECT t.x AS x, y AS x … WHERE x, with no column x known: the query rule
      drops the first alias and finds the second, and is wrong whether or not x
      is a column. */
  lemma LaterAliasIsFound(column: Columns)
    ensures var aliases := [("x", Qualified(["t", "x"])), ("x", Identifier("y"))];
      var kept := Kept(aliases, QueryKeeps(_ => false));
      && Expand(s => s, kept, Identifier("x")) == Identifier("y")
      && Meant(s => s, column, aliases, "x") == (if column("x") then Identifier("x") else Qualified(["t", "x"]))
      && !RightInEveryModel(s => s, column, kept, aliases, Identifier("x"))
  {
    var aliases := [("x", Qualified(["t", "x"])), ("x", Identifier("y"))];
    var keep := QueryKeeps(_ => false);
    assert ["t", "x"][1] == "x" && SameName("x", Qualified(["t", "x"]));
    assert Fold("y")[0] == 'y' && Fold("x")[0] == 'x';
    assert !SameName("x", Identifier("y"));
    assert aliases[1..] == [("x", Identifier("y"))] && aliases[1..][1..] == [];
    assert Kept(aliases, keep) == Kept(aliases[1..], keep) == [("x", Identifier("y"))];
    assert "x"[0] != "y"[0];
    ExpandIsExact(s => s, column, Kept(aliases, keep), aliases, Identifier("x"));
  }

  /** No name the rewriter descends to stands for anything but itself. */
  predicate Idle(lower: Lower, aliases: AliasMap, e: Expr)
    decreases e, 1
  {
    match e
    case Identifier(x) => Find(aliases, lower(x)) in {None, Some(e)}
    case Node(form, es) => IdleFirst(lower, aliases, es, Reach(form, |es|))
    case _ => true
  }

  predicate IdleFirst(lower: Lower, aliases: AliasMap, es: seq<Expr>, k: nat)
    decreases es, 0
  {
    es == [] || k == 0 || (Idle(lower, aliases, es[0]) && IdleFirst(lower, aliases, es[1..], k - 1))
  }

  lemma {:induction false} IdleIs(lower: Lower, aliases: AliasMap, e: Expr)
    ensures Idle(lower, aliases, e) <==> Expand(lower, aliases, e) == e
    decreases e, 1
  {
    match e
    case Node(form, es) => IdleFirstIs(lower, aliases, es, Reach(form, |es|));
    case _ =>
  }

  lemma {:induction false} IdleFirstIs(lower: Lower, aliases: AliasMap, es: seq<Expr>, k: nat)
    ensures IdleFirst(lower, aliases, es, k) <==> ExpandFirst(lower, aliases, es, k) == es
    decreases es, 0
  {
    if es != [] && k > 0 {
      IdleIs(lower, aliases, es[0]);
      IdleFirstIs(lower, aliases, es[1..], k - 1);
      assert es == [es[0]] + es[1..];
      var xs := ExpandFirst(lower, aliases, es, k);
      assert xs[0] == Expand(lower, aliases, es[0]) && xs[1..] == ExpandFirst(lower, aliases, es[1..], k - 1);
    }
  }

  /** What the first pass can put in, the second leaves alone. */
  ghost predicate Stable(lower: Lower, aliases: AliasMap, kept: AliasMap) {
    forall x :: Find(aliases, lower(x)).Some? ==> Idle(lower, kept, Find(aliases, lower(x)).value)
  }

  lemma {:induction false} StableTwice(lower: Lower, aliases: AliasMap, keep: (string, Expr) -> bool, e: Expr)
    requires Stable(lower, aliases, Kept(aliases, keep))
    ensures var once := Expand(lower, aliases, e);
      Expand(lower, Kept(aliases, keep), once) == once
    decreases e, 1
  {
    match e
    case Identifier(x) =>
      KeptOnly(aliases, keep, lower(x));
      if Find(aliases, lower(x)).Some? {
        IdleIs(lower, Kept(aliases, keep), Find(aliases, lower(x)).value);
      }
    case Node(form, es) => StableTwiceFirst(lower, aliases, keep, es, Reach(form, |es|));
    case _ =>
  }

  lemma {:induction false} StableTwiceFirst(lower: Lower, aliases: AliasMap, keep: (string, Expr) -> bool,
                                            es: seq<Expr>, k: nat)
    requires Stable(lower, aliases, Kept(aliases, keep))
    ensures var once := ExpandFirst(lower, aliases, es, k);
      ExpandFirst(lower, Kept(aliases, keep), once, k) == once
    decreases es, 0
  {
    hide Stable;
    if es != [] && k > 0 {
      StableTwice(lower, aliases, keep, es[0]);
      StableTwiceFirst(lower, aliases, keep, es[1..], k - 1);
      assert ExpandFirst(lower, aliases, es, k)[1..] == ExpandFirst(lower, aliases, es[1..], k - 1);
    }
  }

  /** The second pass leaves every expression as the first made it. */
  ghost predicate SecondPassIdle(lower: Lower, aliases: AliasMap, keep: (string, Expr) -> bool) {
    forall e :: Expand(lower, Kept(aliases, keep), Expand(lower, aliases, e)) == Expand(lower, aliases, e)
  }

  lemma SecondPassStable(lower: Lower, aliases: AliasMap, keep: (string, Expr) -> bool)
    ensures SecondPassIdle(lower, aliases, keep) <==> Stable(lower, aliases, Kept(aliases, keep))
  {
    var kept := Kept(aliases, keep);
    if Stable(lower, aliases, kept) {
      forall e
        ensures Expand(lower, kept, Expand(lower, aliases, e)) == Expand(lower, aliases, e)
      {
        StableTwice(lower, aliases, keep, e);
      }
    }
    if SecondPassIdle(lower, aliases, keep) {
      forall x | Find(aliases, lower(x)).Some?
        ensures Idle(lower, kept, Find(aliases, lower(x)).value)
      {
        var r := Find(aliases, lower(x)).value;
        assert Expand(lower, aliases, Identifier(x)) == r;
        assert Expand(lower, kept, Expand(lower, aliases, Identifier(x))) == r;
        IdleIs(lower, kept, r);
      }
    }
  }

  /** An item of the projection that its alias stands for is left alone by the
      second pass. */
  ghost predicate ItemStable(lower: Lower, projection: seq<SelectItem>, keep: (string, Expr) -> bool, n: nat) {
    n < |projection| && projection[n].ExprWithAlias? && FirstAlias(lower, projection, projection[n].alias, n) ==>
      Idle(lower, Kept(AliasesOf(lower, projection), keep), projection[n].expr)
  }

  /** HAVING passes through the GROUP BY rule and then the query rule, both of
      which expand it.  The second changes nothing, whatever the expression,
      exactly when in no item of the projection that its alias stands for does
      the rewriter meet an alias the query rule keeps. */
  lemma SecondPassExact(lower: Lower, projection: seq<SelectItem>, keep: (string, Expr) -> bool)
    ensures SecondPassIdle(lower, AliasesOf(lower, projection), keep)
      <==> forall n: nat :: n < |projection| ==> ItemStable(lower, projection, keep, n)
  {
    var aliases := AliasesOf(lower, projection);
    var kept := Kept(aliases, keep);
    SecondPassStable(lower, aliases, keep);
    hide Idle, Find, AliasesOf, Kept, SecondPassIdle;
    if forall n: nat :: n < |projection| ==> ItemStable(lower, projection, keep, n) {
      forall x | Find(aliases, lower(x)).Some?
        ensures Idle(lower, kept, Find(aliases, lower(x)).value)
      {
        ItemFor(lower, projection, keep, x);
      }
    }
    if Stable(lower, aliases, kept) {
      forall n: nat | n < |projection|
        ensures ItemStable(lower, projection, keep, n)
      {
        if projection[n].ExprWithAlias? && FirstAlias(lower, projection, projection[n].alias, n) {
          FirstIsFound(lower, projection, projection[n].alias, n);
        }
      }
    }
  }

  lemma ItemFor(lower: Lower, projection: seq<SelectItem>, keep: (string, Expr) -> bool, x: string)
    requires Find(AliasesOf(lower, projection), lower(x)).Some?
    requires forall n: nat :: n < |projection| ==> ItemStable(lower, projection, keep, n)
    ensures Idle(lower, Kept(AliasesOf(lower, projection), keep), Find(AliasesOf(lower, projection), lower(x)).value)
  {
    FindsFirst(lower, projection, x);
    hide Idle, Find, AliasesOf, Kept;
    var r := Find(AliasesOf(lower, projection), lower(x)).value;
    var n: nat :| FirstAlias(lower, projection, x, n) && r == projection[n].expr;
    assert FirstAlias(lower, projection, projection[n].alias, n);
    assert ItemStable(lower, projection, keep, n);
  }

  lemma FirstIsFound(lower: Lower, projection: seq<SelectItem>, name: string, n: nat)
    requires FirstAlias(lower, projection, name, n)
    ensures Find(AliasesOf(lower, projection), lower(name)) == Some(projection[n].expr)
  {
    FindsFirst(lower, projection, name);
    hide Find, AliasesOf;
    var r := Find(AliasesOf(lower, projection), lower(name));
    assert Carries(lower, projection[n], name);
    var k: nat :| FirstAlias(lower, projection, name, k) && r.value == projection[k].expr;
    assert k == n;
  }

  /** Where the names an expression shows the rewriter are columns, and the
      query rule keeps no alias that is one, that expression is left alone. */
  predicate Names(lower: Lower, column: Columns, e: Expr)
    decreases e, 1
  {
    match e
    case Identifier(x) => column(lower(x))
    case Node(form, es) => NamesFirst(lower, column, es, Reach(form, |es|))
    case _ => true
  }

  predicate NamesFirst(lower: Lower, column: Columns, es: seq<Expr>, k: nat)
    decreases es, 0
  {
    es == [] || k == 0 || (Names(lower, column, es[0]) && NamesFirst(lower, column, es[1..], k - 1))
  }

  lemma {:induction false} ColumnsAreIdle(lower: Lower, column: Columns, aliases: AliasMap, e: Expr)
    requires Names(lower, column, e) && NoColumns(column, aliases)
    ensures Idle(lower, aliases, e)
    decreases e, 1
  {
    match e
    case Node(form, es) => ColumnsAreIdleFirst(lower, column, aliases, es, Reach(form, |es|));
    case _ =>
  }

  lemma {:induction false} ColumnsAreIdleFirst(lower: Lower, column: Columns, aliases: AliasMap, es: seq<Expr>, k: nat)
    requires NamesFirst(lower, column, es, k) && NoColumns(column, aliases)
    ensures IdleFirst(lower, aliases, es, k)
    decreases es, 0
  {
    if es != [] && k > 0 {
      ColumnsAreIdle(lower, column, aliases, es[0]);
      ColumnsAreIdleFirst(lower, column, aliases, es[1..], k - 1);
    }
  }

  /** SELECT a + 1 AS b, b AS c … HAVING c, with no column b known: the second
      pass expands what the first put in. */
  lemma SecondPassExpands(keep: (string, Expr) -> bool)
    requires forall name, e :: keep(name, e)
    ensures var sum := Node(BinaryOp("+"), [Identifier("a"), Literal(Number("1"))]);
      var aliases := [("b", sum), ("c", Identifier("b"))];
      && Expand(s => s, aliases, Identifier("c")) == Identifier("b")
      && Expand(s => s, Kept(aliases, keep), Expand(s => s, aliases, Identifier("c"))) == sum
      && !SecondPassIdle(s => s, aliases, keep)
  {
    var sum := Node(BinaryOp("+"), [Identifier("a"), Literal(Number("1"))]);
    var aliases := [("b", sum), ("c", Identifier("b"))];
    assert aliases[1..] == [("c", Identifier("b"))];
    assert "b"[0] != "c"[0];
    assert Find(aliases, "c") == Find(aliases[1..], "c") == Some(Identifier("b"));
    assert Find(aliases, "b") == Some(sum);
    AllKept(aliases, keep);
    assert Expand(s => s, Kept(aliases, keep), Expand(s => s, aliases, Identifier("c"))) != Identifier("b");
  }

  lemma {:induction false} AllKept(aliases: AliasMap, keep: (string, Expr) -> bool)
    requires forall name, e :: keep(name, e)
    ensures Kept(aliases, keep) == aliases
  {
    if aliases != [] {
      AllKept(aliases[1..], keep);
    }
  }
}
