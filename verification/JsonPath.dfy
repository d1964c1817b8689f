/** SQLite JSON paths: printing a list of segments and parsing it back, on the
    bytes of UTF-8 text. */
module JsonPath {
  import opened Common
  import opened Utf8

  const DOLLAR: byte := 0x24
  const DOT: byte := 0x2E
  const OPEN: byte := 0x5B
  const CLOSE: byte := 0x5D
  const QUOTE: byte := 0x22
  const APOSTROPHE: byte := 0x27
  const BACKSLASH: byte := 0x5C
  const MINUS: byte := 0x2D
  const PLUS: byte := 0x2B

  predicate Digit(b: byte) {
    0x30 <= b <= 0x39
  }

  predicate Space(b: byte) {
    b == 0x20 || b == 0x09 || b == 0x0A || b == 0x0C || b == 0x0D
  }

  /** The bytes of an unquoted key: letters, digits, `_`, `:` and `-`. */
  predicate NameByte(b: byte) {
    Digit(b) || 0x41 <= b <= 0x5A || 0x61 <= b <= 0x7A || b == 0x5F || b == 0x3A || b == MINUS
  }

  /** How many bytes at the start satisfy p. */
  function Leading(s: Bytes, p: byte -> bool): (n: nat)
    ensures n <= |s| && (forall i :: 0 <= i < n ==> p(s[i])) && (n < |s| ==> !p(s[n]))
  {
    if s != [] && p(s[0]) then 1 + Leading(s[1..], p) else 0
  }

  // ----- integers -------------------------------------------------------

  function Value(digits: Bytes): nat
    requires forall i :: 0 <= i < |digits| ==> Digit(digits[i])
  {
    if digits == [] then 0
    else
      assert Digit(digits[|digits| - 1]);
      Value(digits[..|digits| - 1]) * 10 + (digits[|digits| - 1] as int - 0x30)
  }

  predicate AllDigits(s: Bytes) {
    s != [] && forall i :: 0 <= i < |s| ==> Digit(s[i])
  }

  /** `parse::<i64>` succeeds. */
  predicate IsInteger(s: Bytes) {
    if s != [] && s[0] == MINUS then AllDigits(s[1..]) && Value(s[1..]) <= 0x8000_0000_0000_0000
    else if s != [] && s[0] == PLUS then AllDigits(s[1..]) && Value(s[1..]) < 0x8000_0000_0000_0000
    else AllDigits(s) && Value(s) < 0x8000_0000_0000_0000
  }

  // ----- printing -------------------------------------------------------

  /** Every byte b replaced by `with`. */
  function ReplaceByte(s: Bytes, b: byte, with: Bytes): Bytes {
    if s == [] then [] else (if s[0] == b then with else [s[0]]) + ReplaceByte(s[1..], b, with)
  }

  /** Backslashes doubled first, then quotes escaped. */
  function Escape(seg: Bytes): Bytes {
    ReplaceByte(ReplaceByte(seg, BACKSLASH, [BACKSLASH, BACKSLASH]), QUOTE, [BACKSLASH, QUOTE])
  }

  function Step(seg: Bytes): Bytes {
    if IsInteger(seg) then [OPEN] + seg + [CLOSE]
    else [OPEN, QUOTE] + Escape(seg) + [QUOTE, CLOSE]
  }

  function Steps(segs: seq<Bytes>): Bytes {
    if segs == [] then [] else Step(segs[0]) + Steps(segs[1..])
  }

  lemma StepsFrom(segs: seq<Bytes>, n: nat)
    requires n < |segs|
    ensures Steps(segs[n..]) == Step(segs[n]) + Steps(segs[n + 1..])
  {
    assert segs[n..][1..] == segs[n + 1..];
  }

  lemma Associates(out: Bytes, a: Bytes, b: Bytes, c: Bytes, rest: Bytes)
    ensures out + (a + b + c + rest) == out + a + b + c + rest
  {
  }

  /** `jsonpath_from_segments`. */
  method Print(segs: seq<Bytes>) returns (out: Bytes)
    ensures out == [DOLLAR] + Steps(segs)
  {
    hide Steps, Escape, IsInteger;
    out := [DOLLAR];
    assert segs[0..] == segs;
    for n := 0 to |segs|
      invariant out + Steps(segs[n..]) == [DOLLAR] + Steps(segs)
    {
      StepsFrom(segs, n);
      ghost var before, rest := out, Steps(segs[n + 1..]);
      if IsInteger(segs[n]) {
        Associates(before, [OPEN], segs[n], [CLOSE], rest);
        out := out + [OPEN] + segs[n] + [CLOSE];
      } else {
        Associates(before, [OPEN, QUOTE], Escape(segs[n]), [QUOTE, CLOSE], rest);
        out := out + [OPEN, QUOTE] + Escape(segs[n]) + [QUOTE, CLOSE];
      }
    }
    NoSteps();
    assert segs[|segs|..] == [];
  }

  lemma NoSteps()
    ensures Steps([]) == []
  {
  }

  // ----- parsing --------------------------------------------------------

  /** A key read up to its closing quote: the key and what follows the quote. */
  function ReadKey(s: Bytes, quote: byte): (r: Option<(Bytes, Bytes)>)
    ensures r.Some? ==> |r.value.1| < |s|
  {
    if s == [] then None
    else if s[0] == BACKSLASH && |s| > 1 then Prefixed(Pushed(s[1..]), ReadKey(s[2..], quote))
    else if s[0] != quote then Prefixed(Pushed(s), ReadKey(s[1..], quote))
    else if |s| > 1 && s[1] == quote then Prefixed([quote], ReadKey(s[2..], quote))
    else Some(([], s[1..]))
  }

  function Prefixed(front: Bytes, r: Option<(Bytes, Bytes)>): Option<(Bytes, Bytes)> {
    match r
    case None => None
    case Some((key, rest)) => Some((front + key, rest))
  }

  function SkipSpaces(s: Bytes): (r: Bytes)
    ensures |r| <= |s|
  {
    s[Leading(s, Space)..]
  }

  /** What follows a closing bracket, after spaces. */
  function Closed(s: Bytes): (r: Option<Bytes>)
    ensures r.Some? ==> |r.value| < |s|
  {
    var t := SkipSpaces(s);
    if t != [] && t[0] == CLOSE then Some(t[1..]) else None
  }

  /** One segment of a path and what follows it. */
  function ReadSegment(s: Bytes): (r: Option<(Bytes, Bytes)>)
    requires s != []
    ensures r.Some? ==> |r.value.1| < |s|
  {
    if s[0] == DOT then
      var n := Leading(s[1..], NameByte);
      if n == 0 then None else Some((s[1..1 + n], s[1 + n..]))
    else if s[0] == OPEN then ReadBracket(SkipSpaces(s[1..]))
    else None
  }

  function ReadBracket(s: Bytes): (r: Option<(Bytes, Bytes)>)
    ensures r.Some? ==> |r.value.1| < |s|
  {
    if s == [] then None
    else if s[0] == APOSTROPHE || s[0] == QUOTE then
      match ReadKey(s[1..], s[0])
      case None => None
      case Some((key, rest)) => Ending(key, rest)
    else
      var n := BareLength(s);
      if n == 0 then None else Ending(s[..n], s[n..])
  }

  /** How much of the text is an index, or a key without quotes. */
  function BareLength(s: Bytes): (n: nat)
    requires s != []
    ensures n <= |s|
  {
    var sign := if s[0] == MINUS then 1 else 0;
    var digits := Leading(s[sign..], Digit);
    if digits > 0 then sign + digits else Leading(s, NameByte)
  }

  function Ending(key: Bytes, rest: Bytes): (r: Option<(Bytes, Bytes)>)
    ensures r.Some? ==> |r.value.1| < |rest|
  {
    match Closed(rest)
    case None => None
    case Some(t) => Some((key, t))
  }

  function ReadAll(s: Bytes): Option<seq<Bytes>>
    decreases |s|
  {
    if s == [] then Some([])
    else
      match ReadSegment(s)
      case None => None
      case Some((seg, rest)) =>
        match ReadAll(rest)
        case None => None
        case Some(segs) => Some([seg] + segs)
  }

  function Parse(path: Bytes): Option<seq<Bytes>> {
    if path == [] || path[0] != DOLLAR then None else ReadAll(path[1..])
  }

  method SkipWhile(path: Bytes, i: nat, p: byte -> bool) returns (j: nat)
    requires i <= |path|
    ensures j == i + Leading(path[i..], p)
  {
    j := i;
    while j < |path| && p(path[j])
      invariant i <= j <= |path|
      invariant j + Leading(path[j..], p) == i + Leading(path[i..], p)
    {
      assert path[j..][1..] == path[j + 1..];
      j := j + 1;
    }
  }

  lemma PrefixedTwice(a: Bytes, b: Bytes, r: Option<(Bytes, Bytes)>)
    ensures Prefixed(a, Prefixed(b, r)) == Prefixed(a + b, r)
  {
    if r.Some? {
      assert a + (b + r.value.0) == a + b + r.value.0;
    }
  }

  lemma ReadKeyAt(path: Bytes, i: nat, quote: byte)
    requires i < |path|
    ensures ReadKey(path[i..], quote) ==
      if path[i] == BACKSLASH && i + 1 < |path| then
        Prefixed(Pushed(path[i + 1..]), ReadKey(path[i + 2..], quote))
      else if path[i] != quote then Prefixed(Pushed(path[i..]), ReadKey(path[i + 1..], quote))
      else if i + 1 < |path| && path[i + 1] == quote then
        Prefixed([quote], ReadKey(path[i + 2..], quote))
      else Some(([], path[i + 1..]))
  {
    var s := path[i..];
    assert s[1..] == path[i + 1..];
    assert i + 1 < |path| ==> s[2..] == path[i + 2..] && s[1] == path[i + 1];
  }

  /** One turn of the loop, with the key read so far. */
  lemma ReadKeyTurn(key: Bytes, path: Bytes, i: nat, quote: byte)
    requires i < |path|
    ensures Prefixed(key, ReadKey(path[i..], quote)) ==
      if path[i] == BACKSLASH && i + 1 < |path| then
        Prefixed(key + Pushed(path[i + 1..]), ReadKey(path[i + 2..], quote))
      else if path[i] != quote then Prefixed(key + Pushed(path[i..]), ReadKey(path[i + 1..], quote))
      else if i + 1 < |path| && path[i + 1] == quote then
        Prefixed(key + [quote], ReadKey(path[i + 2..], quote))
      else Some((key, path[i + 1..]))
  {
    ReadKeyAt(path, i, quote);
    hide ReadKey, Pushed;
    if path[i] == BACKSLASH && i + 1 < |path| {
      PrefixedTwice(key, Pushed(path[i + 1..]), ReadKey(path[i + 2..], quote));
    } else if path[i] != quote {
      PrefixedTwice(key, Pushed(path[i..]), ReadKey(path[i + 1..], quote));
    } else if i + 1 < |path| && path[i + 1] == quote {
      PrefixedTwice(key, [quote], ReadKey(path[i + 2..], quote));
    } else {
      assert key + [] == key;
    }
  }

  lemma ReadKeyEnd(key: Bytes, quote: byte)
    ensures Prefixed(key, ReadKey([], quote)) == None
  {
  }

  /** The key, and the place after its closing quote. */
  method ReadQuoted(path: Bytes, start: nat, quote: byte) returns (key: Bytes, i: nat, ok: bool)
    requires start <= |path|
    ensures i <= |path|
    ensures ReadKey(path[start..], quote) == if ok then Some((key, path[i..])) else None
  {
    hide ReadKey, Pushed, Prefixed;
    key, i := [], start;
    EmptyPrefix(ReadKey(path[start..], quote));
    while i < |path|
      invariant start <= i <= |path|
      invariant Prefixed(key, ReadKey(path[i..], quote)) == ReadKey(path[start..], quote)
    {
      ReadKeyTurn(key, path, i, quote);
      if path[i] == BACKSLASH && i + 1 < |path| {
        key := key + Pushed(path[i + 1..]);
        i := i + 2;
      } else if path[i] == quote {
        if i + 1 < |path| && path[i + 1] == quote {
          key := key + [quote];
          i := i + 2;
        } else {
          return key, i + 1, true;
        }
      } else {
        key := key + Pushed(path[i..]);
        i := i + 1;
      }
    }
    ReadKeyEnd(key, quote);
    assert path[i..] == [];
    ok := false;
  }

  lemma EmptyPrefix(r: Option<(Bytes, Bytes)>)
    ensures Prefixed([], r) == r
  {
    if r.Some? {
      assert [] + r.value.0 == r.value.0;
    }
  }

  /** After spaces, the place after a closing bracket. */
  method ReadClose(path: Bytes, start: nat) returns (i: nat, ok: bool)
    requires start <= |path|
    ensures i <= |path|
    ensures Closed(path[start..]) == if ok then Some(path[i..]) else None
  {
    i := SkipWhile(path, start, Space);
    assert SkipSpaces(path[start..]) == path[i..];
    if i >= |path| || path[i] != CLOSE {
      return i, false;
    }
    assert path[i..][1..] == path[i + 1..];
    i, ok := i + 1, true;
  }

  /** One segment starting at a dot or a bracket. */
  method ReadOne(path: Bytes, start: nat) returns (seg: Bytes, i: nat, ok: bool)
    requires start < |path|
    ensures i <= |path|
    ensures ReadSegment(path[start..]) == if ok then Some((seg, path[i..])) else None
  {
    hide Leading, ReadKey, Closed;
    var s := path[start..];
    assert s[1..] == path[start + 1..];
    if path[start] == DOT {
      i := SkipWhile(path, start + 1, NameByte);
      seg, ok := path[start + 1..i], i > start + 1;
      assert s[1..i - start] == seg && s[i - start..] == path[i..];
    } else if path[start] == OPEN {
      i := SkipWhile(path, start + 1, Space);
      assert SkipSpaces(s[1..]) == path[i..];
      seg, i, ok := ReadBracketed(path, i);
    } else {
      seg, i, ok := [], start, false;
    }
  }

  method ReadBracketed(path: Bytes, start: nat) returns (seg: Bytes, i: nat, ok: bool)
    requires start <= |path|
    ensures i <= |path|
    ensures ReadBracket(path[start..]) == if ok then Some((seg, path[i..])) else None
  {
    hide BareLength, ReadKey, Closed;
    if start >= |path| {
      return [], start, false;
    }
    var s := path[start..];
    if path[start] == APOSTROPHE || path[start] == QUOTE {
      assert s[1..] == path[start + 1..];
      seg, i, ok := ReadQuoted(path, start + 1, path[start]);
      if ok {
        i, ok := ReadClose(path, i);
      }
      return;
    }
    i := SkipBare(path, start);
    if i == start {
      return [], i, false;
    }
    seg := path[start..i];
    assert s[..i - start] == seg && s[i - start..] == path[i..];
    i, ok := ReadClose(path, i);
  }

  method SkipBare(path: Bytes, start: nat) returns (i: nat)
    requires start < |path|
    ensures i == start + BareLength(path[start..])
  {
    hide Leading;
    var sign := if path[start] == MINUS then 1 else 0;
    assert path[start..][sign..] == path[start + sign..];
    i := SkipWhile(path, start + sign, Digit);
    if i == start + sign {
      i := SkipWhile(path, start, NameByte);
    }
  }

  function Joined(front: seq<Bytes>, r: Option<seq<Bytes>>): Option<seq<Bytes>> {
    match r
    case None => None
    case Some(segs) => Some(front + segs)
  }

  lemma ReadAllStep(s: Bytes, front: seq<Bytes>)
    requires s != []
    ensures Joined(front, ReadAll(s)) ==
      match ReadSegment(s)
      case None => None
      case Some((seg, rest)) => Joined(front + [seg], ReadAll(rest))
  {
    hide ReadSegment;
    if ReadSegment(s).Some? {
      var (seg, rest) := ReadSegment(s).value;
      if ReadAll(rest).Some? {
        assert front + ([seg] + ReadAll(rest).value) == front + [seg] + ReadAll(rest).value;
      }
    }
  }

  /** `parse_json_path_segments`. */
  method ParseSegments(path: Bytes) returns (r: Option<seq<Bytes>>)
    ensures r == Parse(path)
  {
    hide ReadAll, ReadSegment;
    if path == [] || path[0] != DOLLAR {
      return None;
    }
    var out: seq<Bytes>, i := [], 1;
    JoinedNothing(ReadAll(path[1..]));
    while i < |path|
      invariant 1 <= i <= |path|
      invariant Joined(out, ReadAll(path[i..])) == ReadAll(path[1..])
      decreases |path| - i
    {
      ReadAllStep(path[i..], out);
      var seg, next, ok := ReadOne(path, i);
      if !ok {
        return None;
      }
      out, i := out + [seg], next;
    }
    ReadAllEmpty();
    assert path[i..] == [];
    assert out + [] == out;
    r := Some(out);
  }

  lemma ReadAllEmpty()
    ensures ReadAll([]) == Some([])
  {
  }

  lemma JoinedNothing(r: Option<seq<Bytes>>)
    ensures Joined([], r) == r
  {
    if r.Some? {
      assert [] + r.value == r.value;
    }
  }

  // ----- the round trip -------------------------------------------------

  lemma {:induction false} ReplaceSplit(a: Bytes, t: Bytes, b: byte, with: Bytes)
    ensures ReplaceByte(a + t, b, with) == ReplaceByte(a, b, with) + ReplaceByte(t, b, with)
  {
    if a == [] {
      assert a + t == t;
    } else {
      assert (a + t)[1..] == a[1..] + t;
      ReplaceSplit(a[1..], t, b, with);
    }
  }

  /** What escaping makes of one byte. */
  function EscapedByte(b: byte): Bytes {
    if b == BACKSLASH then [BACKSLASH, BACKSLASH]
    else if b == QUOTE then [BACKSLASH, QUOTE]
    else [b]
  }

  /** The two replacements, one after the other, are one map of the bytes. */
  lemma EscapeCons(b: byte, rest: Bytes)
    ensures Escape([b] + rest) == EscapedByte(b) + Escape(rest)
  {
    var s := [b] + rest;
    assert s[1..] == rest;
    var first := if b == BACKSLASH then [BACKSLASH, BACKSLASH] else [b];
    var inner := ReplaceByte(rest, BACKSLASH, [BACKSLASH, BACKSLASH]);
    ReplaceSplit(first, inner, QUOTE, [BACKSLASH, QUOTE]);
    assert first[1..] == (if b == BACKSLASH then [BACKSLASH] else []);
    assert [BACKSLASH][1..] == [];
  }

  /** Escaping leaves continuation bytes alone. */
  lemma {:induction false} EscapeSkips(skip: Bytes, rest: Bytes)
    requires forall i :: 0 <= i < |skip| ==> Continuation(skip[i])
    ensures Escape(skip + rest) == skip + Escape(rest)
    decreases skip
  {
    hide Escape;
    var s := skip + rest;
    if skip == [] {
      assert s == rest && skip + Escape(rest) == Escape(rest);
    } else {
      assert s == [skip[0]] + (skip[1..] + rest);
      EscapeSkips(skip[1..], rest);
      EscapeCons(skip[0], skip[1..] + rest);
      assert [skip[0]] + (skip[1..] + Escape(rest)) == skip + Escape(rest);
    }
  }

  /** The key reader copies nothing for them. */
  lemma {:induction false} KeySkips(skip: Bytes, rest: Bytes, quote: byte)
    requires Ascii(quote) && forall i :: 0 <= i < |skip| ==> Continuation(skip[i])
    ensures ReadKey(skip + rest, quote) == ReadKey(rest, quote)
    decreases skip
  {
    var s := skip + rest;
    if skip == [] {
      assert s == rest;
    } else {
      assert s[1..] == skip[1..] + rest;
      KeySkips(skip[1..], rest, quote);
      EmptyPrefix(ReadKey(rest, quote));
    }
  }

  /** What escaping makes of one character. */
  function EscapedChar(c: Bytes): Bytes {
    if |c| == 1 then EscapedByte(c[0]) else c
  }

  lemma EscapeChar(c: Bytes, tail: Bytes)
    requires CharOk(c)
    ensures Escape(c + tail) == EscapedChar(c) + Escape(tail)
  {
    hide Escape;
    assert c + tail == [c[0]] + (c[1..] + tail);
    EscapeCons(c[0], c[1..] + tail);
    EscapeSkips(c[1..], tail);
    if |c| > 1 {
      assert [c[0]] + (c[1..] + Escape(tail)) == c + Escape(tail);
    } else {
      assert c[1..] + Escape(tail) == Escape(tail);
    }
  }

  lemma ReadChar(c: Bytes, more: Bytes)
    requires CharOk(c)
    ensures ReadKey(EscapedChar(c) + more, QUOTE) == Prefixed(c, ReadKey(more, QUOTE))
  {
    var s := EscapedChar(c) + more;
    if |c| > 1 {
      PushedChar(c, more);
      assert s[1..] == c[1..] + more;
      KeySkips(c[1..], more, QUOTE);
    } else if c[0] == BACKSLASH || c[0] == QUOTE {
      assert s[1..][0] == c[0] && s[2..] == more;
      assert Pushed(s[1..]) == c;
    } else {
      assert s[1..] == more && Pushed(s) == c;
    }
  }

  lemma EmptyReads(rest: Bytes)
    requires rest == [] || rest[0] != QUOTE
    ensures ReadKey(Escape([]) + [QUOTE] + rest, QUOTE) == Some(([], rest))
  {
    var s := Escape([]) + [QUOTE] + rest;
    assert s == [QUOTE] + rest && s[1..] == rest;
  }

  /** An escaped key is read back up to its closing quote. */
  lemma {:induction false} EscapeReads(cs: seq<Bytes>, rest: Bytes)
    requires AllOk(cs) && (rest == [] || rest[0] != QUOTE)
    ensures ReadKey(Escape(Flat(cs)) + [QUOTE] + rest, QUOTE) == Some((Flat(cs), rest))
    decreases cs
  {
    hide Escape, ReadKey, CharOk, EscapedChar;
    if cs == [] {
      EmptyReads(rest);
    } else {
      var c, tail := cs[0], Flat(cs[1..]);
      var more := Escape(tail) + [QUOTE] + rest;
      EscapeReads(cs[1..], rest);
      EscapeChar(c, tail);
      ReadChar(c, more);
      assert EscapedChar(c) + Escape(tail) + [QUOTE] + rest == EscapedChar(c) + more;
    }
  }

  /** A signed integer the printer does not quote and the parser does not read. */
  predicate PlusInteger(seg: Bytes) {
    IsInteger(seg) && seg[0] == PLUS
  }

  lemma LeadingIs(s: Bytes, p: byte -> bool, n: nat)
    requires n < |s| && (forall i :: 0 <= i < n ==> p(s[i])) && !p(s[n])
    ensures Leading(s, p) == n
  {
  }

  lemma BareInteger(seg: Bytes, rest: Bytes)
    requires IsInteger(seg)
    ensures BareLength(seg + [CLOSE] + rest) == if PlusInteger(seg) then 0 else |seg|
  {
    hide Value, Leading;
    var s := seg + [CLOSE] + rest;
    if PlusInteger(seg) {
      LeadingIs(s, Digit, 0);
      LeadingIs(s, NameByte, 0);
      assert s[0..] == s;
    } else {
      var sign := if seg[0] == MINUS then 1 else 0;
      var digits := seg[sign..];
      assert s[sign..] == digits + [CLOSE] + rest;
      LeadingIs(s[sign..], Digit, |digits|);
    }
  }

  lemma ReadsInteger(seg: Bytes, rest: Bytes)
    requires IsInteger(seg)
    ensures ReadBracket(seg + [CLOSE] + rest) == if PlusInteger(seg) then None else Some((seg, rest))
  {
    hide Value, BareLength;
    var s := seg + [CLOSE] + rest;
    BareInteger(seg, rest);
    assert s[0] == seg[0] && s[..|seg|] == seg && s[|seg|..] == [CLOSE] + rest;
    ReadsClose(rest);
  }

  lemma ReadsClose(rest: Bytes)
    ensures Closed([CLOSE] + rest) == Some(rest)
  {
    LeadingIs([CLOSE] + rest, Space, 0);
  }

  lemma ReadsKey(seg: Bytes, rest: Bytes)
    requires Valid(seg)
    ensures ReadBracket([QUOTE] + Escape(seg) + [QUOTE, CLOSE] + rest) == Some((seg, rest))
  {
    hide Escape, ReadKey;
    var s := [QUOTE] + Escape(seg) + [QUOTE, CLOSE] + rest;
    FlatChars(seg);
    EscapeReads(Chars(seg), [CLOSE] + rest);
    assert s[1..] == Escape(seg) + [QUOTE] + ([CLOSE] + rest);
    assert ([CLOSE] + rest)[1..] == rest;
  }

  lemma ReadsOpen(s: Bytes, t: Bytes)
    requires s == [OPEN] + t && t != [] && !Space(t[0])
    ensures ReadSegment(s) == ReadBracket(t)
  {
    hide ReadBracket;
    assert s[1..] == t;
    assert SkipSpaces(t) == t;
  }

  lemma ReadsStep(seg: Bytes, rest: Bytes)
    requires Valid(seg)
    ensures ReadSegment(Step(seg) + rest) == if PlusInteger(seg) then None else Some((seg, rest))
  {
    hide Escape, ReadBracket, ReadSegment, Value, Valid;
    if IsInteger(seg) {
      ReadsInteger(seg, rest);
      ReadsOpen(Step(seg) + rest, seg + [CLOSE] + rest);
    } else {
      ReadsKey(seg, rest);
      ReadsOpen(Step(seg) + rest, [QUOTE] + Escape(seg) + [QUOTE, CLOSE] + rest);
    }
  }

  /** What parsing makes of a printed list of segments: the same segments, and
      nothing at all exactly when one of them is an integer with a plus sign. */
  lemma {:induction false} ReadsSteps(segs: seq<Bytes>)
    requires forall i :: 0 <= i < |segs| ==> Valid(segs[i])
    ensures ReadAll(Steps(segs)) ==
      if exists i :: 0 <= i < |segs| && PlusInteger(segs[i]) then None else Some(segs)
  {
    hide Step, ReadSegment, PlusInteger, Valid;
    if segs != [] {
      var rest := segs[1..];
      ReadsSteps(rest);
      ReadsStep(segs[0], Steps(rest));
      assert segs == [segs[0]] + rest;
      StepNotEmpty(segs[0]);
      if !PlusInteger(segs[0]) {
        assert forall i :: 0 <= i < |rest| ==> rest[i] == segs[i + 1];
        assert forall i :: 1 <= i < |segs| ==> segs[i] == rest[i - 1];
      }
    }
  }

  lemma StepNotEmpty(seg: Bytes)
    ensures Step(seg) != []
  {
  }

  lemma PrintParses(segs: seq<Bytes>)
    requires forall i :: 0 <= i < |segs| ==> Valid(segs[i])
    ensures Parse([DOLLAR] + Steps(segs)) == Some(segs)
      <==> forall i :: 0 <= i < |segs| ==> !PlusInteger(segs[i])
  {
    hide Steps, ReadAll, Valid, PlusInteger;
    ReadsSteps(segs);
    assert ([DOLLAR] + Steps(segs))[1..] == Steps(segs);
  }

  // ----- what is parsed is text -----------------------------------------

  /** Well-formed text after what may be the end of a character. */
  predicate Mid(s: Bytes) {
    if s != [] && Continuation(s[0]) then Mid(s[1..]) else Valid(s)
  }

  lemma {:induction false} MidSkip(skip: Bytes, rest: Bytes)
    requires Valid(rest) && forall i :: 0 <= i < |skip| ==> Continuation(skip[i])
    ensures Mid(skip + rest)
    decreases skip
  {
    if skip == [] {
      assert skip + rest == rest;
      ValidStart(rest);
    } else {
      assert (skip + rest)[1..] == skip[1..] + rest;
      MidSkip(skip[1..], rest);
    }
  }

  lemma ValidStart(s: Bytes)
    requires Valid(s)
    ensures s != [] ==> !Continuation(s[0])
  {
    if s != [] {
      assert s[..Width(s[0])][0] == s[0];
    }
  }

  /** The first byte of a text contributes its character, and what follows is
      text after the end of a character. */
  lemma AfterFirst(s: Bytes)
    requires Valid(s) && s != []
    ensures Valid(Pushed(s)) && Mid(s[1..]) && (Ascii(s[0]) ==> Valid(s[1..]))
  {
    hide Valid, Mid, Pushed, CharOk;
    var w := Width(s[0]);
    FirstChar(s);
    CharValid(s[..w]);
    assert s[1..] == s[1..w] + s[w..];
    MidSkip(s[1..w], s[w..]);
  }

  lemma FirstChar(s: Bytes)
    requires Valid(s) && s != []
    ensures var w := Width(s[0]);
      && w <= |s| && CharOk(s[..w]) && Valid(s[w..]) && Pushed(s) == s[..w]
      && forall i :: 0 <= i < |s[1..w]| ==> Continuation(s[1..w][i])
  {
    ValidStart(s);
    var w := Width(s[0]);
    assert forall i :: 0 <= i < |s[1..w]| ==> s[1..w][i] == s[..w][i + 1];
  }

  lemma CharValid(c: Bytes)
    requires CharOk(c)
    ensures Valid(c)
  {
    assert c[..|c|] == c && c[|c|..] == [];
  }

  lemma PrefixedValid(front: Bytes, r: Option<(Bytes, Bytes)>)
    requires Valid(front) && (r.Some? ==> Valid(r.value.0) && Valid(r.value.1))
    ensures var p := Prefixed(front, r); p.Some? ==> Valid(p.value.0) && Valid(p.value.1)
  {
    if r.Some? {
      ValidJoin(front, r.value.0);
    }
  }

  lemma {:induction false} KeyValid(s: Bytes, quote: byte)
    requires Mid(s) && Ascii(quote)
    ensures var r := ReadKey(s, quote); r.Some? ==> Valid(r.value.0) && Valid(r.value.1)
    decreases |s|
  {
    hide Valid;
    if s == [] {
    } else if Continuation(s[0]) {
      KeyValid(s[1..], quote);
      EmptyPrefix(ReadKey(s[1..], quote));
    } else {
      AfterFirst(s);
      if s[0] == BACKSLASH && |s| > 1 {
        assert s[1..][1..] == s[2..];
        AfterFirst(s[1..]);
        KeyValid(s[2..], quote);
        PrefixedValid(Pushed(s[1..]), ReadKey(s[2..], quote));
      } else if s[0] != quote {
        KeyValid(s[1..], quote);
        PrefixedValid(Pushed(s), ReadKey(s[1..], quote));
      } else if |s| > 1 && s[1] == quote {
        assert s[1..][1..] == s[2..];
        AfterFirst(s[1..]);
        KeyValid(s[2..], quote);
        QuoteValid(quote);
        PrefixedValid([quote], ReadKey(s[2..], quote));
      } else {
        QuoteValid(quote);
      }
    }
  }

  lemma QuoteValid(quote: byte)
    requires Ascii(quote)
    ensures Valid([quote]) && Valid([])
  {
    AsciiValid([quote]);
  }

  lemma {:induction false} AsciiFront(s: Bytes, n: nat)
    requires Valid(s) && n <= |s| && forall i :: 0 <= i < n ==> Ascii(s[i])
    ensures Valid(s[..n]) && Valid(s[n..])
  {
    if n == 0 {
      assert s[0..] == s;
    } else {
      AfterAscii(s, n - 1);
      ValidCut(s, n);
    }
  }

  lemma ClosedValid(s: Bytes)
    requires Valid(s)
    ensures Closed(s).Some? ==> Valid(Closed(s).value)
  {
    hide Valid;
    var n := Leading(s, Space);
    if n < |s| && s[n] == CLOSE {
      assert forall i :: 0 <= i < n ==> Space(s[i]);
      AsciiFront(s, n + 1);
      assert s[n..][1..] == s[n + 1..];
    }
  }

  lemma BareValid(s: Bytes)
    requires Valid(s) && s != []
    ensures Valid(s[..BareLength(s)]) && Valid(s[BareLength(s)..])
  {
    hide Valid;
    var sign := if s[0] == MINUS then 1 else 0;
    var digits := Leading(s[sign..], Digit);
    if digits > 0 {
      assert forall i :: sign <= i < sign + digits ==> s[i] == s[sign..][i - sign];
    } else {
      assert forall i :: 0 <= i < Leading(s, NameByte) ==> NameByte(s[i]);
    }
    AsciiFront(s, BareLength(s));
  }

  lemma BracketValid(s: Bytes)
    requires Valid(s)
    ensures var r := ReadBracket(s); r.Some? ==> Valid(r.value.0) && Valid(r.value.1)
  {
    hide Valid, ReadKey, BareLength, Closed;
    if s != [] {
      if s[0] == APOSTROPHE || s[0] == QUOTE {
        AfterFirst(s);
        KeyValid(s[1..], s[0]);
        if ReadKey(s[1..], s[0]).Some? {
          ClosedValid(ReadKey(s[1..], s[0]).value.1);
        }
      } else {
        BareValid(s);
        ClosedValid(s[BareLength(s)..]);
      }
    }
  }

  lemma SegmentValid(s: Bytes)
    requires Valid(s) && s != []
    ensures var r := ReadSegment(s); r.Some? ==> Valid(r.value.0) && Valid(r.value.1)
  {
    hide Valid, ReadBracket;
    if s[0] == DOT || s[0] == OPEN {
      AfterFirst(s);
      var t := s[1..];
      var n := if s[0] == DOT then Leading(t, NameByte) else Leading(t, Space);
      assert forall i :: 0 <= i < n ==> NameByte(t[i]) || Space(t[i]);
      AsciiFront(t, n);
      assert t[..n] == s[1..1 + n] && t[n..] == s[1 + n..];
      BracketValid(t[n..]);
    }
  }

  /** The segments of a path that is text are text. */
  lemma {:induction false} SegmentsValid(s: Bytes)
    requires Valid(s)
    ensures ReadAll(s).Some? ==> forall i :: 0 <= i < |ReadAll(s).value| ==> Valid(ReadAll(s).value[i])
    decreases |s|
  {
    hide Valid, ReadSegment;
    if s != [] {
      SegmentValid(s);
      if ReadSegment(s).Some? {
        SegmentsValid(ReadSegment(s).value.1);
      }
    }
  }

  /** A path and the path printed from its segments are read alike, exactly
      when no segment is an integer with a plus sign. */
  lemma Reprinted(path: Bytes)
    requires Valid(path) && Parse(path).Some?
    ensures var segs := Parse(path).value;
      (Parse([DOLLAR] + Steps(segs)) == Parse(path)
       <==> forall i :: 0 <= i < |segs| ==> !PlusInteger(segs[i]))
  {
    hide Valid, Parse, Steps, ReadAll, PlusInteger;
    ParsedStart(path);
    AfterFirst(path);
    SegmentsValid(path[1..]);
    PrintParses(Parse(path).value);
  }

  lemma ParsedStart(path: Bytes)
    requires Parse(path).Some?
    ensures path != [] && path[0] == DOLLAR && Parse(path) == ReadAll(path[1..])
  {
  }
}
