/** The `placeholders` pass: every placeholder becomes PostgreSQL's `$N` and
    the parameter names are recorded slot by slot. */
module Placeholders {
  import opened Common
  import opened Sql
  import SqliteParams
  import Numbering

  datatype Names = Names(paramNames: seq<Option<string>>, slots: map<string, nat>)

  const NoNames := Names([], map[])

  function Pad(names: seq<Option<string>>, n: nat): (r: seq<Option<string>>)
    ensures |r| == Max(|names|, n)
    ensures forall i :: 0 <= i < |r| ==> r[i] == if i < |names| then names[i] else None
  {
    if |names| < n then names + seq(n - |names|, _ => None) else names
  }

  /** The text before and after the first colon. */
  function SplitColon(s: string): Option<(string, string)> {
    if s == "" then None
    else if s[0] == ':' then Some(("", s[1..]))
    else
      match SplitColon(s[1..])
      case None => None
      case Some((a, b)) => Some(([s[0]] + a, b))
  }

  /** What `Numbering::slot` makes of a token: its slot, None when the token
      is left as written, and the names after it. */
  function SlotOf(st: Names, token: string): (Option<nat>, Names) {
    if token == "?" then
      (Some(|st.paramNames| + 1), st.(paramNames := st.paramNames + [None]))
    else if token != "" && token[0] == '?' then
      var rest := token[1..];
      var split := SplitColon(rest);
      var (digits, name) :=
        if split.Some? && split.value.1 != "" then (split.value.0, Some(split.value.1)) else (rest, None);
      var n := ParseUsize(digits);
      if n.None? || n.value == 0 then (None, st)
      else (Some(n.value), Explicit(st, n.value, name))
    else if token == "" || !SqliteParams.IsSigil(token[0]) then (None, st)
    else
      var name := token[1..];
      if name == "" || (token[0] == '$' && AllDigits(name)) then (None, st)
      else if name in st.slots then (Some(st.slots[name]), st)
      else
        var n := |st.paramNames| + 1;
        (Some(n), Names(st.paramNames + [Some(name)], st.slots[name := n]))
  }

  function Explicit(st: Names, n: nat, name: Option<string>): Names
    requires n >= 1
  {
    var padded := Pad(st.paramNames, n);
    if name.Some? then Names(padded[n - 1 := name], st.slots[name.value := n])
    else st.(paramNames := padded)
  }

  function Dollar(n: nat): string {
    "$" + Decimal(n)
  }

  function Rewritten(st: Names, token: string): string {
    var (n, _) := SlotOf(st, token);
    if n.Some? then Dollar(n.value) else token
  }

  function Texts(st: Names, ts: seq<string>): (r: seq<string>)
    ensures |r| == |ts|
    decreases ts
  {
    if ts == [] then [] else [Rewritten(st, ts[0])] + Texts(SlotOf(st, ts[0]).1, ts[1..])
  }

  function EndNames(st: Names, ts: seq<string>): Names
    decreases ts
  {
    if ts == [] then st else EndNames(SlotOf(st, ts[0]).1, ts[1..])
  }

  lemma {:induction false} Split(st: Names, ts: seq<string>, us: seq<string>)
    ensures Texts(st, ts + us) == Texts(st, ts) + Texts(EndNames(st, ts), us)
    ensures EndNames(st, ts + us) == EndNames(EndNames(st, ts), us)
    decreases ts
  {
    if ts == [] {
      assert ts + us == us;
    } else {
      assert (ts + us)[1..] == ts[1..] + us;
      Split(SlotOf(st, ts[0]).1, ts[1..], us);
    }
  }

  // ----- the pass -------------------------------------------------------

  class Pass {
    var paramNames: seq<Option<string>>
    var names: map<string, nat>

    function State(): Names
      reads this
    {
      Names(paramNames, names)
    }

    constructor ()
      ensures State() == NoNames
    {
      paramNames, names := [], map[];
    }

    method Fresh(name: Option<string>) returns (n: nat)
      modifies this
      ensures paramNames == old(paramNames) + [name] && n == |paramNames| && names == old(names)
    {
      paramNames := paramNames + [name];
      n := |paramNames|;
    }

    /** `?NNN`: pads the slots before NNN when it skips ahead. */
    method ExplicitSlot(n: nat)
      modifies this
      ensures paramNames == Pad(old(paramNames), n) && names == old(names)
    {
      while |paramNames| < n
        invariant |old(paramNames)| <= |paramNames| <= Max(|old(paramNames)|, n)
        invariant forall i :: 0 <= i < |paramNames| ==>
                                paramNames[i] == if i < |old(paramNames)| then old(paramNames)[i] else None
        invariant names == old(names)
      {
        paramNames := paramNames + [None];
      }
    }

    method ExplicitNamed(n: nat, name: string)
      requires n >= 1
      modifies this
      ensures State() == Explicit(old(State()), n, Some(name))
    {
      ExplicitSlot(n);
      paramNames := paramNames[n - 1 := Some(name)];
      names := names[name := n];
    }

    method NamedSlot(name: string) returns (n: nat)
      modifies this
      ensures name in old(names) ==> n == old(names)[name] && State() == old(State())
      ensures name !in old(names) ==> n == |old(paramNames)| + 1
                                      && State() == Names(old(paramNames) + [Some(name)], old(names)[name := n])
    {
      if name in names {
        return names[name];
      }
      n := Fresh(Some(name));
      names := names[name := n];
    }

    method Slot(token: string) returns (r: Option<nat>)
      modifies this
      ensures (r, State()) == SlotOf(old(State()), token)
    {
      if token == "?" {
        var n := Fresh(None);
        return Some(n);
      }
      if token == "" {
        return None;
      }
      if token[0] == '?' {
        var rest := token[1..];
        var split := SplitColon(rest);
        var digits, name := rest, None;
        if split.Some? && split.value.1 != "" {
          digits, name := split.value.0, Some(split.value.1);
        }
        var n := ParseUsize(digits);
        if n.None? || n.value == 0 {
          return None;
        }
        match name {
          case Some(text) => ExplicitNamed(n.value, text);
          case None => ExplicitSlot(n.value);
        }
        return n;
      }
      if !SqliteParams.IsSigil(token[0]) {
        return None;
      }
      var name := token[1..];
      if name == "" || (token[0] == '$' && AllDigits(name)) {
        return None;
      }
      var n := NamedSlot(name);
      r := Some(n);
    }

    /** Rewrites the placeholders of an expression as the visitor meets them. */
    method VisitExpr(e: Expr) returns (r: Expr)
      modifies this
      ensures r == Fill(e, Texts(old(State()), Tokens(e)))
      ensures State() == EndNames(old(State()), Tokens(e))
      decreases e, 1
    {
      match e
      case Placeholder(t) =>
        var n := Slot(t);
        r := Placeholder(if n.Some? then Dollar(n.value) else t);
      case Node(f, es) =>
        var rs := VisitAll(es);
        r := Node(f, rs);
      case _ =>
        r := e;
    }

    method VisitAll(es: seq<Expr>) returns (rs: seq<Expr>)
      modifies this
      ensures rs == FillAll(es, Texts(old(State()), AllTokens(es)))
      ensures State() == EndNames(old(State()), AllTokens(es))
      decreases es, 0
    {
      if es == [] {
        return [];
      }
      var head := VisitExpr(es[0]);
      var tail := VisitAll(es[1..]);
      rs := [head] + tail;
      Split(old(State()), Tokens(es[0]), AllTokens(es[1..]));
    }
  }

  // ----- a token whose slot is already fixed ----------------------------

  predicate Fixed(s: Numbering.Slot) {
    s.n >= 1 && s.name != Some("")
  }

  lemma {:induction false} SplitColonAt(digits: string, rest: string)
    requires ':' !in digits
    ensures SplitColon(digits + ":" + rest) == Some((digits, rest))
    ensures SplitColon(digits) == None
  {
    var s := digits + ":" + rest;
    if digits == "" {
      assert s[1..] == rest;
    } else {
      SplitColonAt(digits[1..], rest);
      assert s[1..] == digits[1..] + ":" + rest;
      assert digits == [digits[0]] + digits[1..];
    }
  }

  /** `?NNN` and `?NNN:name` are read back as the slot they were written for,
      whatever stands before them. */
  lemma ReadsBack(st: Names, s: Numbering.Slot)
    requires Fixed(s)
    ensures SlotOf(st, Numbering.SlotText(s)) == (Some(s.n), Explicit(st, s.n, s.name))
  {
    var digits := Decimal(s.n);
    var text := Numbering.SlotText(s);
    ParseDecimal(s.n);
    assert ':' !in digits by {
      assert forall c :: c in digits ==> IsDigit(c);
    }
    if s.name.Some? {
      assert text[1..] == digits + ":" + s.name.value;
      SplitColonAt(digits, s.name.value);
    } else {
      assert text[1..] == digits;
      SplitColonAt(digits, "");
    }
  }
}
