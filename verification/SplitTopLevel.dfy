/** `guide_load::split_top_level`: a SET list cut at its commas outside quotes
    and parentheses. */
module SplitTopLevel {
  import opened Common

  /** Open parentheses, and the quote the scan is inside of. */
  datatype State = State(depth: nat, quote: Option<char>)

  const Top := State(0, None)

  predicate IsQuote(c: char) {
    c == '\'' || c == '"' || c == '`'
  }

  function Step(st: State, c: char): State {
    if st.quote.Some? then (if c == st.quote.value then st.(quote := None) else st)
    else if IsQuote(c) then st.(quote := Some(c))
    else if c == '(' then st.(depth := st.depth + 1)
    else if c == ')' && st.depth > 0 then st.(depth := st.depth - 1)
    else st
  }

  function After(st: State, s: string): State
    decreases s
  {
    if s == "" then st else After(Step(st, s[0]), s[1..])
  }

  /** The first comma at top level. */
  function Cut(st: State, s: string): (r: Option<nat>)
    ensures r.Some? ==> r.value < |s|
    decreases s
  {
    if s == "" then None
    else if st == Top && s[0] == ',' then Some(0)
    else
      match Cut(Step(st, s[0]), s[1..])
      case None => None
      case Some(k) => Some(k + 1)
  }

  function Parts(s: string): (r: seq<string>)
    ensures r != []
  {
    match Cut(Top, s)
    case None => [s]
    case Some(k) => [s[..k]] + Parts(s[k + 1..])
  }

  function Join(parts: seq<string>): string
    requires parts != []
  {
    if |parts| == 1 then parts[0] else parts[0] + "," + Join(parts[1..])
  }

  /** The parts still to come when a part began at start and the scan stands
      at i. */
  function Pending(s: string, start: nat, i: nat, st: State): seq<string>
    requires start <= i <= |s|
  {
    match Cut(st, s[i..])
    case None => [s[start..]]
    case Some(k) => [s[start..i + k]] + Parts(s[i + k + 1..])
  }

  lemma PendingStart(s: string)
    ensures Pending(s, 0, 0, Top) == Parts(s)
  {
    assert s[0..] == s;
  }

  lemma PendingFrom(s: string, i: nat)
    requires i <= |s|
    ensures Pending(s, i, i, Top) == Parts(s[i..])
  {
    var rest := s[i..];
    var k := Cut(Top, rest);
    if k.Some? {
      assert rest[..k.value] == s[i..i + k.value];
      assert rest[k.value + 1..] == s[i + k.value + 1..];
    }
  }

  lemma PendingAtCut(s: string, start: nat, i: nat)
    requires start <= i < |s| && s[i] == ','
    ensures Pending(s, start, i, Top) == [s[start..i]] + Pending(s, i + 1, i + 1, Top)
  {
    PendingFrom(s, i + 1);
  }

  lemma PendingStep(s: string, start: nat, i: nat, st: State)
    requires start <= i < |s| && !(st == Top && s[i] == ',')
    ensures Pending(s, start, i, st) == Pending(s, start, i + 1, Step(st, s[i]))
  {
    assert s[i..][1..] == s[i + 1..];
  }

  lemma PendingEnd(s: string, start: nat, st: State)
    requires start <= |s|
    ensures Pending(s, start, |s|, st) == [s[start..]]
  {
  }

  method Split(s: string) returns (parts: seq<string>)
    ensures parts == Parts(s)
  {
    hide Pending, Parts;
    parts := [];
    var st, start, i := Top, 0, 0;
    PendingStart(s);
    while i < |s|
      invariant 0 <= start <= i <= |s|
      invariant parts + Pending(s, start, i, st) == Parts(s)
    {
      if st == Top && s[i] == ',' {
        PendingAtCut(s, start, i);
        assert parts + ([s[start..i]] + Pending(s, i + 1, i + 1, Top))
            == parts + [s[start..i]] + Pending(s, i + 1, i + 1, Top);
        parts := parts + [s[start..i]];
        start := i + 1;
      } else {
        PendingStep(s, start, i, st);
        st := Step(st, s[i]);
      }
      i := i + 1;
    }
    PendingEnd(s, start, st);
    parts := parts + [s[start..]];
  }

  // ----- what the parts are ---------------------------------------------

  /** Each part has no comma at top level; each but the last ends there. */
  ghost predicate Separable(parts: seq<string>) {
    && parts != []
    && (forall i :: 0 <= i < |parts| ==> Cut(Top, parts[i]).None?)
    && (forall i :: 0 <= i < |parts| - 1 ==> After(Top, parts[i]) == Top)
  }

  /** Before the first cut there is none, and the scan is back at top level. */
  lemma {:induction false} CutSplits(st: State, s: string)
    requires Cut(st, s).Some?
    ensures var k := Cut(st, s).value;
      s[k] == ',' && Cut(st, s[..k]).None? && After(st, s[..k]) == Top
    decreases s
  {
    var k := Cut(st, s).value;
    if k > 0 {
      CutSplits(Step(st, s[0]), s[1..]);
      assert s[..k][1..] == s[1..][..k - 1];
    }
  }

  lemma JoinCons(part: string, rest: seq<string>)
    requires rest != []
    ensures Join([part] + rest) == part + "," + Join(rest)
  {
    assert ([part] + rest)[1..] == rest;
  }

  lemma SeparableCons(part: string, rest: seq<string>)
    requires Separable(rest) && Cut(Top, part).None? && After(Top, part) == Top
    ensures Separable([part] + rest)
  {
  }

  /** Joined with commas the parts are the text again, and they are cut at
      every comma at top level and at no other. */
  lemma {:induction false} PartsJoin(s: string)
    ensures Join(Parts(s)) == s && Separable(Parts(s))
  {
    var k := Cut(Top, s);
    if k.Some? {
      var part, rest := s[..k.value], s[k.value + 1..];
      PartsJoin(rest);
      CutSplits(Top, s);
      JoinCons(part, Parts(rest));
      SeparableCons(part, Parts(rest));
      assert s == part + "," + rest;
    }
  }

  /** A comma after a text that ends at top level and has no cut is a cut. */
  lemma {:induction false} CutAfter(st: State, part: string, rest: string)
    requires Cut(st, part).None? && After(st, part) == Top
    ensures Cut(st, part + "," + rest) == Some(|part|)
    decreases part
  {
    var s := part + "," + rest;
    if part != "" {
      CutAfter(Step(st, part[0]), part[1..], rest);
      assert s[1..] == part[1..] + "," + rest;
    }
  }

  /** Such parts, joined, are split back into themselves. */
  lemma {:induction false} JoinParts(parts: seq<string>)
    requires Separable(parts)
    ensures Parts(Join(parts)) == parts
  {
    if |parts| > 1 {
      var s, rest := Join(parts), Join(parts[1..]);
      JoinParts(parts[1..]);
      CutAfter(Top, parts[0], rest);
      assert s[..|parts[0]|] == parts[0] && s[|parts[0]| + 1..] == rest;
    }
  }

  // ----- an assignment list as it is written ----------------------------

  /** What a value is written from: a character, a text in quotes, or more of
      it in parentheses. */
  datatype Bit =
    | Char(c: char)
    | Quoted(quote: char, text: string)
    | Group(bits: seq<Bit>)

  /** A comma stands by itself only within parentheses. */
  predicate Balanced(b: Bit, top: bool)
    decreases b, 1
  {
    match b
    case Char(c) => c != '\'' && c != '"' && c != '`' && c != '(' && c != ')' && (top ==> c != ',')
    case Quoted(quote, text) => (quote == '\'' || quote == '"' || quote == '`') && quote !in text
    case Group(bits) => AllBalanced(bits, false)
  }

  predicate AllBalanced(bits: seq<Bit>, top: bool)
    decreases bits, 0
  {
    bits == [] || (Balanced(bits[0], top) && AllBalanced(bits[1..], top))
  }

  function Text(b: Bit): string
    decreases b, 1
  {
    match b
    case Char(c) => [c]
    case Quoted(quote, text) => [quote] + (text + [quote])
    case Group(bits) => "(" + (Texts(bits) + ")")
  }

  function Texts(bits: seq<Bit>): string
    decreases bits, 0
  {
    if bits == [] then "" else Text(bits[0]) + Texts(bits[1..])
  }

  /** The scan passes over a text without a cut and ends where it began. */
  predicate Passes(d: nat, s: string) {
    Cut(State(d, None), s).None? && After(State(d, None), s) == State(d, None)
  }

  lemma {:induction false} AppendPasses(st: State, a: string, b: string)
    requires Cut(st, a).None? && Cut(After(st, a), b).None?
    ensures Cut(st, a + b).None? && After(st, a + b) == After(After(st, a), b)
    decreases a
  {
    if a == "" {
      assert a + b == b;
    } else {
      assert (a + b)[1..] == a[1..] + b;
      AppendPasses(Step(st, a[0]), a[1..], b);
    }
  }

  lemma OneStep(st: State, c: char)
    requires !(st == Top && c == ',')
    ensures Cut(st, [c]).None? && After(st, [c]) == Step(st, c)
  {
    assert [c][1..] == "";
  }

  lemma {:induction false} QuotePasses(d: nat, quote: char, text: string)
    requires quote !in text
    ensures var st := State(d, Some(quote)); Cut(st, text).None? && After(st, text) == st
    decreases text
  {
    if text != "" {
      QuotePasses(d, quote, text[1..]);
    }
  }

  lemma {:induction false} BitPasses(b: Bit, d: nat)
    requires Balanced(b, d == 0)
    ensures Passes(d, Text(b))
    decreases b, 1
  {
    hide Cut, After;
    var st := State(d, None);
    match b
    case Char(c) => OneStep(st, c);
    case Quoted(quote, text) =>
      var inside := State(d, Some(quote));
      OneStep(st, quote);
      QuotePasses(d, quote, text);
      OneStep(inside, quote);
      AppendPasses(inside, text, [quote]);
      AppendPasses(st, [quote], text + [quote]);
    case Group(bits) =>
      OneStep(st, '(');
      BitsPass(bits, d + 1);
      OneStep(State(d + 1, None), ')');
      AppendPasses(State(d + 1, None), Texts(bits), ")");
      AppendPasses(st, "(", Texts(bits) + ")");
  }

  lemma {:induction false} BitsPass(bits: seq<Bit>, d: nat)
    requires AllBalanced(bits, d == 0)
    ensures Passes(d, Texts(bits))
    decreases bits, 0
  {
    if bits != [] {
      BitPasses(bits[0], d);
      BitsPass(bits[1..], d);
      AppendPasses(State(d, None), Text(bits[0]), Texts(bits[1..]));
    }
  }

  function AllTexts(values: seq<seq<Bit>>): (r: seq<string>)
    ensures |r| == |values| && forall i :: 0 <= i < |values| ==> r[i] == Texts(values[i])
  {
    seq(|values|, i requires 0 <= i < |values| => Texts(values[i]))
  }

  /** A list of values, each balanced and quoted, with commas between them is
      split into just those values. */
  lemma ValuesSplit(values: seq<seq<Bit>>)
    requires values != [] && forall i :: 0 <= i < |values| ==> AllBalanced(values[i], true)
    ensures Parts(Join(AllTexts(values))) == AllTexts(values)
  {
    hide Cut, After, Texts, AllBalanced;
    forall i | 0 <= i < |values|
      ensures Passes(0, AllTexts(values)[i])
    {
      BitsPass(values[i], 0);
    }
    JoinParts(AllTexts(values));
  }
}
