/** How SQLite numbers the bind parameters of a statement ("Parameters",
    sqlite.org lang_expr), kept apart from the shim's own passes. */
module SqliteParams {
  import opened Common

  /** A parameter as SQLite reads it: `?`, `?NNN`, or a sigil and a name. */
  datatype Param = Ask | At(n: nat) | Name(sigil: char, name: string)

  predicate IsSigil(c: char) {
    c == ':' || c == '@' || c == '$'
  }

  /** A character of an identifier, as SQLite's tokenizer has it. */
  predicate IdChar(c: char) {
    'a' <= c <= 'z' || 'A' <= c <= 'Z' || IsDigit(c) || c == '_' || c == '$' || c as int >= 0x80
  }

  /** A parameter token SQLite accepts.  After a sigil comes an identifier
      character, or the two colons of a qualified name. */
  predicate Token(t: string) {
    || t == "?"
    || (|t| > 1 && t[0] == '?' && AllDigits(t[1..]) && DigitsValue(t[1..]) >= 1)
    || (|t| > 1 && IsSigil(t[0]) && (IdChar(t[1]) || t[1] == ':'))
  }

  function Read(t: string): Param
    requires Token(t)
  {
    if t == "?" then Ask
    else if t[0] == '?' then At(DigitsValue(t[1..]))
    else Name(t[0], t[1..])
  }

  predicate AllTokens(ts: seq<string>) {
    forall t :: t in ts ==> Token(t)
  }

  function ReadAll(ts: seq<string>): (ps: seq<Param>)
    requires AllTokens(ts)
    ensures |ps| == |ts| && forall i :: 0 <= i < |ts| ==> ps[i] == Read(ts[i])
  {
    seq(|ts|, i requires 0 <= i < |ts| => Read(ts[i]))
  }

  /** The largest number given out so far and the number of each name; names
      under different sigils are different names. */
  datatype Params = Params(largest: nat, names: map<Param, nat>)

  const NoParams := Params(0, map[])

  /** The slot of the next parameter and the numbering after it. */
  function Number(s: Params, p: Param): (nat, Params) {
    match p
    case Ask => (s.largest + 1, s.(largest := s.largest + 1))
    case At(n) => (n, s.(largest := Max(s.largest, n)))
    case Name(_, _) =>
      if p in s.names then (s.names[p], s)
      else (s.largest + 1, Params(s.largest + 1, s.names[p := s.largest + 1]))
  }

  function Slots(s: Params, ps: seq<Param>): (r: seq<nat>)
    ensures |r| == |ps|
    decreases ps
  {
    if ps == [] then [] else [Number(s, ps[0]).0] + Slots(Number(s, ps[0]).1, ps[1..])
  }

  function After(s: Params, ps: seq<Param>): Params
    decreases ps
  {
    if ps == [] then s else After(Number(s, ps[0]).1, ps[1..])
  }

  function NamesIn(ps: seq<Param>): set<Param> {
    set p | p in ps && p.Name?
  }

  /** No name stands under two sigils. */
  predicate OneSigilEach(ps: set<Param>) {
    forall a, b :: a in ps && b in ps && a.Name? && b.Name? && a.name == b.name ==> a == b
  }

  /** Names get distinct slots, all of them handed out. */
  ghost predicate Sane(s: Params) {
    && (forall p :: p in s.names ==> p.Name? && 1 <= s.names[p] <= s.largest)
    && (forall a, b :: a in s.names && b in s.names && s.names[a] == s.names[b] ==> a == b)
  }

  lemma NumberSane(s: Params, p: Param)
    requires Sane(s)
    ensures Sane(Number(s, p).1)
    ensures Number(s, p).1.names.Keys == s.names.Keys + if p.Name? then {p} else {}
  {
  }

  lemma NamesInCons(ps: seq<Param>)
    requires ps != []
    ensures NamesIn(ps) == (if ps[0].Name? then {ps[0]} else {}) + NamesIn(ps[1..])
  {
    assert ps == [ps[0]] + ps[1..];
  }

  lemma {:induction false} AfterSane(s: Params, ps: seq<Param>)
    requires Sane(s)
    ensures Sane(After(s, ps))
    ensures After(s, ps).names.Keys == s.names.Keys + NamesIn(ps)
    decreases ps
  {
    if ps != [] {
      NumberSane(s, ps[0]);
      NamesInCons(ps);
      AfterSane(Number(s, ps[0]).1, ps[1..]);
    }
  }
}
