/** `count_bare_question_marks` and `dummy_shadow_sql`: placeholders counted in
    a statement, and the statement SQLite is given in place of one that
    PostgreSQL answers.  A text is its bytes, one char each. */
module QuestionMarks {
  import opened Common
  import SqliteParams

  // ----- one byte at a time ---------------------------------------------

  datatype Lexer =
    | Normal
    | Dash                      // a '-' that may open a line comment
    | Slash                     // a '/' that may open a block comment
    | Quote(quote: char)
    | Bracket
    | LineComment
    | BlockComment
    | BlockStar                 // a '*' that may close a block comment

  predicate IsQuote(c: char) {
    c == '\'' || c == '"' || c == '`'
  }

  function FromNormal(c: char): Lexer {
    if IsQuote(c) then Quote(c)
    else if c == '[' then Bracket
    else if c == '-' then Dash
    else if c == '/' then Slash
    else Normal
  }

  /** A doubled quote closes the literal and opens it again. */
  function Step(st: Lexer, c: char): Lexer {
    match st
    case Normal => FromNormal(c)
    case Dash => if c == '-' then LineComment else FromNormal(c)
    case Slash => if c == '*' then BlockComment else FromNormal(c)
    case Quote(q) => if c == q then Normal else st
    case Bracket => if c == ']' then Normal else st
    case LineComment => if c == '\n' then Normal else st
    case BlockComment => if c == '*' then BlockStar else st
    case BlockStar => if c == '/' then Normal else if c == '*' then st else BlockComment
  }

  predicate Bare(st: Lexer) {
    st.Normal? || st.Dash? || st.Slash?
  }

  /** How many question marks lie outside quotes and comments. */
  function Marks(st: Lexer, s: string): nat
    decreases s
  {
    if s == "" then 0
    else (if Bare(st) && s[0] == '?' then 1 else 0) + Marks(Step(st, s[0]), s[1..])
  }

  // ----- skipping ahead -------------------------------------------------

  /** What is left from i on; an unterminated literal takes i past the end. */
  function From(s: string, i: nat): string {
    if i <= |s| then s[i..] else ""
  }

  lemma MarksFrom(st: Lexer, s: string, i: nat)
    ensures Marks(st, From(s, i)) ==
      if i >= |s| then 0
      else (if Bare(st) && s[i] == '?' then 1 else 0) + Marks(Step(st, s[i]), From(s, i + 1))
  {
    if i < |s| {
      assert s[i..][1..] == s[i + 1..];
    }
  }

  method SkipQuoted(sql: string, start: nat) returns (i: nat)
    requires start < |sql| && IsQuote(sql[start])
    ensures i > start && Marks(Normal, From(sql, start)) == Marks(Normal, From(sql, i))
  {
    hide Marks, From;
    MarksFrom(Normal, sql, start);
    var q := sql[start];
    i := start + 1;
    while i < |sql|
      invariant i > start
      invariant Marks(Quote(q), From(sql, i)) == Marks(Normal, From(sql, start))
    {
      MarksFrom(Quote(q), sql, i);
      if sql[i] == q {
        if i + 1 < |sql| && sql[i + 1] == q {
          MarksFrom(Normal, sql, i + 1);
          i := i + 2;
          continue;
        }
        break;
      }
      i := i + 1;
    }
    MarksFrom(Quote(q), sql, i);
    MarksFrom(Normal, sql, i + 1);
    i := i + 1;
  }

  method SkipBracketed(sql: string, start: nat) returns (i: nat)
    requires start < |sql| && sql[start] == '['
    ensures i > start && Marks(Normal, From(sql, start)) == Marks(Normal, From(sql, i))
  {
    hide Marks, From;
    MarksFrom(Normal, sql, start);
    MarksFrom(Bracket, sql, start);
    i := start;
    while i < |sql| && sql[i] != ']'
      invariant i >= start
      invariant Marks(Bracket, From(sql, i)) == Marks(Normal, From(sql, start))
    {
      MarksFrom(Bracket, sql, i);
      i := i + 1;
    }
    MarksFrom(Bracket, sql, i);
    MarksFrom(Normal, sql, i + 1);
    i := i + 1;
  }

  method SkipLineComment(sql: string, start: nat) returns (i: nat)
    requires start + 1 < |sql| && sql[start] == '-' && sql[start + 1] == '-'
    ensures i > start && Marks(Normal, From(sql, start)) == Marks(Normal, From(sql, i))
  {
    hide Marks, From;
    MarksFrom(Normal, sql, start);
    MarksFrom(Dash, sql, start + 1);
    MarksFrom(LineComment, sql, start);
    MarksFrom(LineComment, sql, start + 1);
    i := start;
    while i < |sql| && sql[i] != '\n'
      invariant i >= start && (i == start ==> sql[i] != '\n')
      invariant Marks(LineComment, From(sql, i)) == Marks(Normal, From(sql, start))
    {
      MarksFrom(LineComment, sql, i);
      i := i + 1;
    }
    MarksFrom(LineComment, sql, i);
    MarksFrom(Normal, sql, i);
  }

  method SkipBlockComment(sql: string, start: nat) returns (i: nat)
    requires start + 1 < |sql| && sql[start] == '/' && sql[start + 1] == '*'
    ensures i > start && Marks(Normal, From(sql, start)) == Marks(Normal, From(sql, i))
  {
    hide Marks, From;
    MarksFrom(Normal, sql, start);
    MarksFrom(Slash, sql, start + 1);
    i := start + 2;
    while i + 1 < |sql| && !(sql[i] == '*' && sql[i + 1] == '/')
      invariant i > start
      invariant Marks(BlockComment, From(sql, i)) == Marks(Normal, From(sql, start))
    {
      MarksFrom(BlockComment, sql, i);
      StarIsBlock(sql, i + 1);
      i := i + 1;
    }
    MarksFrom(BlockComment, sql, i);
    MarksFrom(BlockStar, sql, i + 1);
    MarksFrom(BlockComment, sql, i + 1);
    MarksFrom(Normal, sql, i + 2);
    i := i + 2;
  }

  /** After a star, a byte other than a slash is read as in the comment. */
  lemma StarIsBlock(s: string, i: nat)
    ensures i < |s| && s[i] != '/' ==> Marks(BlockStar, From(s, i)) == Marks(BlockComment, From(s, i))
  {
    MarksFrom(BlockStar, s, i);
    MarksFrom(BlockComment, s, i);
  }

  /** After a '-' or '/' that opens nothing, reading goes on as if it were not
      there. */
  lemma OpensNothing(s: string, i: nat)
    ensures i >= |s| || s[i] != '-' ==> Marks(Dash, From(s, i)) == Marks(Normal, From(s, i))
    ensures i >= |s| || s[i] != '*' ==> Marks(Slash, From(s, i)) == Marks(Normal, From(s, i))
  {
    MarksFrom(Dash, s, i);
    MarksFrom(Slash, s, i);
    MarksFrom(Normal, s, i);
  }

  /** Skipping ahead counts what reading byte by byte counts, unterminated
      literals and comments included. */
  method CountBareQuestionMarks(sql: string) returns (n: nat)
    ensures n == Marks(Normal, sql)
  {
    n := 0;
    var i := 0;
    assert From(sql, 0) == sql;
    hide Marks, From;
    while i < |sql|
      invariant n + Marks(Normal, From(sql, i)) == Marks(Normal, sql)
      decreases |sql| - i
    {
      if IsQuote(sql[i]) {
        i := SkipQuoted(sql, i);
      } else if sql[i] == '[' {
        i := SkipBracketed(sql, i);
      } else if sql[i] == '-' && i + 1 < |sql| && sql[i + 1] == '-' {
        i := SkipLineComment(sql, i);
      } else if sql[i] == '/' && i + 1 < |sql| && sql[i + 1] == '*' {
        i := SkipBlockComment(sql, i);
      } else {
        MarksFrom(Normal, sql, i);
        OpensNothing(sql, i + 1);
        if sql[i] == '?' {
          n := n + 1;
        }
        i := i + 1;
      }
    }
    MarksFrom(Normal, sql, i);
  }

  // ----- the shadow statement -------------------------------------------

  function EmptyShadow(): string { "SELECT 1 WHERE 0" }

  function Head(): string { "SELECT 1 WHERE " }

  function Glue(): string { " AND " }

  function Test(): string { " IS NOT NULL" }

  function Term(name: Option<string>): string {
    if name.Some? then ":" + name.value + Test() else "?" + Test()
  }

  function Terms(names: seq<Option<string>>): string {
    if names == [] then "" else Term(names[0]) + MoreTerms(names[1..])
  }

  function MoreTerms(names: seq<Option<string>>): string {
    if names == [] then "" else Glue() + Term(names[0]) + MoreTerms(names[1..])
  }

  function Shadow(names: seq<Option<string>>): string {
    if names == [] then EmptyShadow() else Head() + Terms(names)
  }

  lemma ShadowCons(names: seq<Option<string>>)
    requires names != []
    ensures Shadow(names) == Head() + (Term(names[0]) + MoreTerms(names[1..]))
  {
    hide Head, Term, MoreTerms;
  }

  lemma ShadowNone()
    ensures Shadow([]) == EmptyShadow()
  {
  }

  lemma MoreTermsFrom(names: seq<Option<string>>, n: nat)
    requires n <= |names|
    ensures MoreTerms(names[n..]) ==
      if n == |names| then "" else Glue() + Term(names[n]) + MoreTerms(names[n + 1..])
  {
    assert n < |names| ==> names[n..][1..] == names[n + 1..];
  }

  lemma Associates(out: string, a: string, b: string, rest: string)
    ensures out + (a + b + rest) == out + a + b + rest
    ensures out + (a + rest) == out + a + rest
  {
  }

  /** A term appended piece by piece. */
  method AddTerm(name: Option<string>, text: string) returns (out: string)
    ensures out == text + Term(name)
  {
    hide Test;
    out := text;
    match name {
      case Some(n) =>
        out := out + ":";
        out := out + n;
        out := out + Test();
      case None => out := out + ("?" + Test());
    }
  }

  method DummyShadowSql(names: seq<Option<string>>) returns (out: string)
    ensures out == Shadow(names)
  {
    if names == [] {
      return EmptyShadow();
    }
    hide MoreTerms, Term, Head, Glue;
    MoreTermsFrom(names, 0);
    out := Head();
    for i := 0 to |names|
      invariant i == 0 ==> out == Head()
      invariant i > 0 ==> out + MoreTerms(names[i..]) == Shadow(names)
    {
      MoreTermsFrom(names, i);
      Associates(out, Glue(), Term(names[i]), MoreTerms(names[i + 1..]));
      Associates(out, Term(names[i]), "", MoreTerms(names[i + 1..]));
      if i > 0 {
        out := out + Glue();
      }
      out := AddTerm(names[i], out);
    }
    MoreTermsFrom(names, |names|);
  }

  // ----- what SQLite reads in it ----------------------------------------

  function Run(s: string, p: char -> bool): (n: nat)
    ensures n <= |s| && (forall i :: 0 <= i < n ==> p(s[i])) && (n < |s| ==> !p(s[n]))
  {
    if s != "" && p(s[0]) then 1 + Run(s[1..], p) else 0
  }

  /** The parameter tokens of a statement without quotes or comments. */
  function Tokens(s: string): seq<string>
    decreases |s|
  {
    if s == "" then []
    else if s[0] == '?' then
      var n := 1 + Run(s[1..], IsDigit);
      [s[..n]] + Tokens(s[n..])
    else if SqliteParams.IsSigil(s[0]) then
      var n := 1 + Run(s[1..], SqliteParams.IdChar);
      (if n > 1 then [s[..n]] else []) + Tokens(s[n..])
    else if SqliteParams.IdChar(s[0]) then Tokens(s[Run(s, SqliteParams.IdChar)..])
    else Tokens(s[1..])
  }

  function TokenOf(name: Option<string>): string {
    if name.Some? then ":" + name.value else "?"
  }

  function TokensOf(names: seq<Option<string>>): (r: seq<string>)
    ensures |r| == |names|
  {
    if names == [] then [] else [TokenOf(names[0])] + TokensOf(names[1..])
  }

  /** Names a parameter can have. */
  predicate Identifier(name: Option<string>) {
    name.Some? ==> name.value != "" && forall i :: 0 <= i < |name.value| ==> SqliteParams.IdChar(name.value[i])
  }

  predicate Word(c: char) {
    c == ' ' || (SqliteParams.IdChar(c) && c != '$')
  }

  predicate Words(s: string) {
    forall i :: 0 <= i < |s| ==> Word(s[i])
  }

  lemma RunIs(s: string, p: char -> bool, n: nat)
    requires n <= |s| && (forall i :: 0 <= i < n ==> p(s[i])) && (n < |s| ==> !p(s[n]))
    ensures Run(s, p) == n
  {
  }

  /** Keywords, numbers and spaces hold no parameter. */
  lemma {:induction false} TokensSkip(a: string, t: string)
    requires Words(a) && (t == "" || !SqliteParams.IdChar(t[0]))
    ensures Tokens(a + t) == Tokens(t)
    decreases |a|
  {
    var s := a + t;
    if a == "" {
      assert s == t;
    } else {
      var n := if a[0] == ' ' then 1 else Run(a, SqliteParams.IdChar);
      if a[0] != ' ' {
        RunIs(s, SqliteParams.IdChar, n);
      }
      assert s[n..] == a[n..] + t;
      TokensSkip(a[n..], t);
    }
  }

  lemma TokensNone(a: string)
    requires Words(a)
    ensures Tokens(a) == []
  {
    assert a + "" == a;
    TokensSkip(a, "");
  }

  lemma TokenReads(name: Option<string>, more: string)
    requires Identifier(name) && (more == "" || !SqliteParams.IdChar(more[0]))
    ensures Tokens(TokenOf(name) + more) == [TokenOf(name)] + Tokens(more)
  {
    var token := TokenOf(name);
    var s, n := token + more, |token|;
    assert s[1..] == token[1..] + more;
    if name.Some? {
      RunIs(s[1..], SqliteParams.IdChar, n - 1);
    } else {
      RunIs(s[1..], IsDigit, 0);
    }
    assert s[..n] == token && s[n..] == more;
  }

  lemma WordsOnly()
    ensures Words(Head()) && Words(Glue()) && Words(Test()) && Words(EmptyShadow())
    ensures Test() != "" && Test()[0] == ' '
    ensures Glue() != "" && Glue()[0] == ' '
  {
  }

  lemma TokensTerm(name: Option<string>, t: string)
    requires Identifier(name) && (t == "" || !SqliteParams.IdChar(t[0]))
    ensures Tokens(Term(name) + t) == [TokenOf(name)] + Tokens(t)
  {
    hide Tokens, Words, Identifier, Test, Glue, Head, EmptyShadow;
    WordsOnly();
    assert Term(name) + t == TokenOf(name) + (Test() + t);
    TokenReads(name, Test() + t);
    TokensSkip(Test(), t);
  }

  lemma TokensAfter(head: string, name: Option<string>, rest: string)
    requires Words(head) && Identifier(name) && (rest == "" || !SqliteParams.IdChar(rest[0]))
    ensures Tokens(head + (Term(name) + rest)) == [TokenOf(name)] + Tokens(rest)
  {
    hide Tokens, Words, Identifier, Term;
    TermStarts(name);
    TokensSkip(head, Term(name) + rest);
    TokensTerm(name, rest);
  }

  lemma {:induction false} TokensMore(names: seq<Option<string>>)
    requires forall i :: 0 <= i < |names| ==> Identifier(names[i])
    ensures Tokens(MoreTerms(names)) == TokensOf(names)
    ensures MoreTerms(names) == "" || !SqliteParams.IdChar(MoreTerms(names)[0])
  {
    hide Tokens, Term, Words, Glue, Test, Head, EmptyShadow;
    WordsOnly();
    if names == [] {
      NoTokens();
    } else {
      var rest := MoreTerms(names[1..]);
      TokensMore(names[1..]);
      TokensAfter(Glue(), names[0], rest);
      assert Glue() + Term(names[0]) + rest == Glue() + (Term(names[0]) + rest);
    }
  }

  lemma NoTokens()
    ensures Tokens("") == []
  {
  }

  lemma TermStarts(name: Option<string>)
    ensures Term(name) != "" && !SqliteParams.IdChar(Term(name)[0])
  {
  }

  /** SQLite reads one parameter for each, in order and by name. */
  lemma ShadowTokens(names: seq<Option<string>>)
    requires forall i :: 0 <= i < |names| ==> Identifier(names[i])
    ensures Tokens(Shadow(names)) == TokensOf(names)
  {
    hide Tokens, Term, MoreTerms, Words, Shadow, Identifier, Head, EmptyShadow, Glue, Test;
    WordsOnly();
    if names == [] {
      ShadowNone();
      TokensNone(EmptyShadow());
    } else {
      var rest := MoreTerms(names[1..]);
      TokensMore(names[1..]);
      ShadowCons(names);
      TokensAfter(Head(), names[0], rest);
    }
  }

  function ParamOf(name: Option<string>): SqliteParams.Param {
    if name.Some? then SqliteParams.Name(':', name.value) else SqliteParams.Ask
  }

  function ParamsOf(names: seq<Option<string>>): (r: seq<SqliteParams.Param>)
    ensures |r| == |names|
  {
    if names == [] then [] else [ParamOf(names[0])] + ParamsOf(names[1..])
  }

  lemma {:induction false} ReadTokens(names: seq<Option<string>>)
    requires forall i :: 0 <= i < |names| ==> Identifier(names[i])
    ensures SqliteParams.AllTokens(TokensOf(names))
    ensures SqliteParams.ReadAll(TokensOf(names)) == ParamsOf(names)
  {
    if names != [] {
      ReadTokens(names[1..]);
      var ts := TokensOf(names);
      assert ts == [ts[0]] + TokensOf(names[1..]);
      assert names[0].Some? ==> ts[0][0] == ':' && ts[0][1..] == names[0].value;
      assert SqliteParams.ReadAll(ts) == [SqliteParams.Read(ts[0])] + SqliteParams.ReadAll(TokensOf(names[1..]));
    }
  }

  /** n slots in a row after k. */
  function Row(k: nat, n: nat): (r: seq<nat>)
    ensures |r| == n
    decreases n
  {
    if n == 0 then [] else [k + 1] + Row(k + 1, n - 1)
  }

  /** No parameter is called what another is, or what is numbered already. */
  predicate Distinct(taken: set<SqliteParams.Param>, names: seq<Option<string>>)
    decreases names
  {
    names == [] ||
    (if names[0].Some? then
       ParamOf(names[0]) !in taken && Distinct(taken + {ParamOf(names[0])}, names[1..])
     else Distinct(taken, names[1..]))
  }

  lemma {:induction false} SlotsInARow(st: SqliteParams.Params, names: seq<Option<string>>)
    requires SqliteParams.Sane(st)
    ensures SqliteParams.Slots(st, ParamsOf(names)) == Row(st.largest, |names|)
      <==> Distinct(st.names.Keys, names)
    decreases names
  {
    if names != [] {
      var p, rest := ParamOf(names[0]), names[1..];
      var next := SqliteParams.Number(st, p).1;
      SqliteParams.NumberSane(st, p);
      SlotsInARow(next, rest);
      var slots, row := SqliteParams.Slots(st, ParamsOf(names)), Row(st.largest, |names|);
      assert ParamsOf(names)[1..] == ParamsOf(rest);
      assert slots[1..] == SqliteParams.Slots(next, ParamsOf(rest));
      assert row[1..] == Row(st.largest + 1, |rest|);
      assert slots == [slots[0]] + slots[1..] && row == [row[0]] + row[1..];
    }
  }

  predicate OwnNames(names: seq<Option<string>>) {
    forall i, j :: 0 <= i < j < |names| && names[i].Some? ==> names[i] != names[j]
  }

  predicate NoneTaken(taken: set<SqliteParams.Param>, names: seq<Option<string>>) {
    forall i :: 0 <= i < |names| && names[i].Some? ==> ParamOf(names[i]) !in taken
  }

  lemma {:induction false} DistinctIs(taken: set<SqliteParams.Param>, names: seq<Option<string>>)
    ensures Distinct(taken, names) <==> NoneTaken(taken, names) && OwnNames(names)
    decreases names
  {
    if names != [] {
      var first, rest := names[0], names[1..];
      assert names == [first] + rest;
      DistinctIs(if first.Some? then taken + {ParamOf(first)} else taken, rest);
      if OwnNames(names) {
        OwnNamesTail(first, rest);
      } else if OwnNames(rest) && (first.Some? ==> first !in rest) {
        OwnNamesCons(first, rest);
      }
    }
  }

  lemma OwnNamesCons(first: Option<string>, rest: seq<Option<string>>)
    requires OwnNames(rest) && (first.Some? ==> first !in rest)
    ensures OwnNames([first] + rest)
  {
    var names := [first] + rest;
    forall i, j | 0 <= i < j < |names| && names[i].Some?
      ensures names[i] != names[j]
    {
      assert names[j] == rest[j - 1];
      assert i > 0 ==> names[i] == rest[i - 1];
    }
  }

  lemma OwnNamesTail(first: Option<string>, rest: seq<Option<string>>)
    requires OwnNames([first] + rest)
    ensures OwnNames(rest) && (first.Some? ==> first !in rest)
  {
    var names := [first] + rest;
    forall i, j | 0 <= i < j < |rest| && rest[i].Some?
      ensures rest[i] != rest[j]
    {
      assert names[i + 1] != names[j + 1];
    }
    forall j | 0 <= j < |rest| && first.Some?
      ensures rest[j] != first
    {
      assert names[0] != names[j + 1];
    }
  }

  /** A bind made on the shadow lands at the index it has in the translation,
      for all of them, exactly when no two parameters share a name. */
  lemma ShadowSlots(names: seq<Option<string>>)
    requires forall i :: 0 <= i < |names| ==> Identifier(names[i])
    ensures var ts := Tokens(Shadow(names));
      && SqliteParams.AllTokens(ts)
      && (SqliteParams.Slots(SqliteParams.NoParams, SqliteParams.ReadAll(ts)) == Row(0, |names|)
          <==> OwnNames(names))
  {
    hide Tokens, Shadow, Identifier, TokensOf, ParamsOf, Row, Distinct, OwnNames;
    hide SqliteParams.Slots, SqliteParams.ReadAll, SqliteParams.AllTokens;
    ShadowTokens(names);
    ReadTokens(names);
    SlotsInARow(SqliteParams.NoParams, names);
    assert SqliteParams.NoParams.names.Keys == {};
    DistinctIs({}, names);
  }

  // ----- what the counter counts in it ----------------------------------

  function Unnamed(names: seq<Option<string>>): nat {
    if names == [] then 0 else (if names[0].None? then 1 else 0) + Unnamed(names[1..])
  }

  predicate Calm(c: char) {
    FromNormal(c) == Normal && c != '?'
  }

  predicate AllCalm(s: string) {
    forall i :: 0 <= i < |s| ==> Calm(s[i])
  }

  lemma {:induction false} MarksSkip(a: string, t: string)
    requires AllCalm(a)
    ensures Marks(Normal, a + t) == Marks(Normal, t)
  {
    if a == "" {
      assert a + t == t;
    } else {
      assert (a + t)[1..] == a[1..] + t;
      MarksSkip(a[1..], t);
    }
  }

  lemma CalmOnly()
    ensures AllCalm(Head()) && AllCalm(Glue()) && AllCalm(Test()) && AllCalm(EmptyShadow())
  {
  }

  lemma MarksNone(a: string)
    requires AllCalm(a)
    ensures Marks(Normal, a) == 0
  {
    assert a + "" == a;
    MarksSkip(a, "");
  }

  lemma MarksToken(name: Option<string>, t: string)
    requires Identifier(name)
    ensures Marks(Normal, TokenOf(name) + t) == (if name.None? then 1 else 0) + Marks(Normal, t)
  {
    if name.Some? {
      assert AllCalm(TokenOf(name));
      MarksSkip(TokenOf(name), t);
    } else {
      assert ("?" + t)[1..] == t;
    }
  }

  lemma MarksTerm(name: Option<string>, t: string)
    requires Identifier(name)
    ensures Marks(Normal, Term(name) + t) == (if name.None? then 1 else 0) + Marks(Normal, t)
  {
    hide Marks, AllCalm, Identifier, Test, Glue, Head, EmptyShadow;
    CalmOnly();
    assert Term(name) + t == TokenOf(name) + (Test() + t);
    MarksToken(name, Test() + t);
    MarksSkip(Test(), t);
  }

  lemma {:induction false} MarksMore(names: seq<Option<string>>)
    requires forall i :: 0 <= i < |names| ==> Identifier(names[i])
    ensures Marks(Normal, MoreTerms(names)) == Unnamed(names)
  {
    hide Term, AllCalm, Identifier, Glue, Test, Head, EmptyShadow;
    CalmOnly();
    if names != [] {
      hide Marks;
      var rest := MoreTerms(names[1..]);
      MarksMore(names[1..]);
      MarksSkip(Glue(), Term(names[0]) + rest);
      MarksTerm(names[0], rest);
      assert Glue() + Term(names[0]) + rest == Glue() + (Term(names[0]) + rest);
    }
  }

  /** In the shadow statement the counter finds exactly the unnamed ones. */
  lemma ShadowMarks(names: seq<Option<string>>)
    requires forall i :: 0 <= i < |names| ==> Identifier(names[i])
    ensures Marks(Normal, Shadow(names)) == Unnamed(names)
  {
    hide Term, AllCalm, Identifier, Marks, MoreTerms, Shadow, Head, EmptyShadow, Glue, Test;
    CalmOnly();
    if names == [] {
      ShadowNone();
      MarksNone(EmptyShadow());
    } else {
      var rest := MoreTerms(names[1..]);
      MarksMore(names[1..]);
      ShadowCons(names);
      MarksSkip(Head(), Term(names[0]) + rest);
      MarksTerm(names[0], rest);
    }
  }
}
