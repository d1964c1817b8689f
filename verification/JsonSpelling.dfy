/** The paths the parser takes, as they may be written: a path is read as a
    list of segments exactly when it is a spelling of that list. */
module JsonSpelling {
  import opened Common
  import opened Utf8
  import opened JsonPath

  // ----- how a segment may be written -----------------------------------

  /** A character of a quoted key: as it is, the quote doubled, or after a
      backslash. */
  datatype Mark = AsIs | Twice | Slashed

  datatype Spelling =
    | Dotted                                                                         // .name
    | Bracketed(before: Bytes, after: Bytes)                                         // [name], [n]
    | Quoted(before: Bytes, quote: byte, chars: seq<Bytes>, marks: seq<Mark>, after: Bytes)   // ['key'], ["key"]

  /** Letters, digits, `_`, `:` and `-`. */
  predicate NameText(s: Bytes) {
    forall i :: 0 <= i < |s| ==>
      || 0x30 <= s[i] <= 0x39 || 0x41 <= s[i] <= 0x5A || 0x61 <= s[i] <= 0x7A
      || s[i] == 0x5F || s[i] == 0x3A || s[i] == 0x2D
  }

  /** Blanks, tabs, line ends and form feeds. */
  predicate SpaceText(s: Bytes) {
    forall i :: 0 <= i < |s| ==> s[i] == 0x20 || s[i] == 0x09 || s[i] == 0x0A || s[i] == 0x0C || s[i] == 0x0D
  }

  predicate DigitText(s: Bytes) {
    forall i :: 0 <= i < |s| ==> 0x30 <= s[i] <= 0x39
  }

  /** What follows a minus sign, or all. */
  function Unsigned(seg: Bytes): Bytes {
    if seg != [] && seg[0] == 0x2D then seg[1..] else seg
  }

  predicate MarkOk(c: Bytes, mark: Mark, quote: byte) {
    match mark
    case AsIs => c != [quote] && c != [0x5C]
    case Twice => c == [quote]
    case Slashed => true
  }

  predicate AllMarks(chars: seq<Bytes>, marks: seq<Mark>, quote: byte) {
    |chars| == |marks| && forall i :: 0 <= i < |chars| ==> MarkOk(chars[i], marks[i], quote)
  }

  /** The segment can be written so.  In brackets without quotes, a name that
      begins with a digit, after a minus sign or not, is digits only. */
  ghost predicate Spells(sp: Spelling, seg: Bytes) {
    match sp
    case Dotted => seg != [] && NameText(seg)
    case Bracketed(before, after) =>
      && SpaceText(before) && SpaceText(after) && seg != [] && NameText(seg)
      && (Unsigned(seg) != [] && DigitText(Unsigned(seg)[..1]) ==> DigitText(Unsigned(seg)))
    case Quoted(before, quote, chars, marks, after) =>
      && SpaceText(before) && SpaceText(after) && (quote == 0x27 || quote == 0x22)
      && AllOk(chars) && AllMarks(chars, marks, quote) && Flat(chars) == seg
  }

  function MarkedChar(c: Bytes, mark: Mark, quote: byte): Bytes {
    match mark
    case AsIs => c
    case Twice => [quote, quote]
    case Slashed => [0x5C] + c
  }

  function Marked(chars: seq<Bytes>, marks: seq<Mark>, quote: byte): Bytes
    requires |chars| == |marks|
  {
    if chars == [] then [] else MarkedChar(chars[0], marks[0], quote) + Marked(chars[1..], marks[1..], quote)
  }

  ghost function Spelled(sp: Spelling, seg: Bytes): Bytes
    requires Spells(sp, seg)
  {
    match sp
    case Dotted => [0x2E] + seg
    case Bracketed(before, after) => [0x5B] + (before + (seg + (after + [0x5D])))
    case Quoted(before, quote, chars, marks, after) =>
      [0x5B] + (before + ([quote] + (Marked(chars, marks, quote) + ([quote] + (after + [0x5D])))))
  }

  ghost predicate AllSpell(sps: seq<Spelling>, segs: seq<Bytes>) {
    |sps| == |segs| && forall i :: 0 <= i < |segs| ==> Spells(sps[i], segs[i])
  }

  ghost function Written(sps: seq<Spelling>, segs: seq<Bytes>): Bytes
    requires AllSpell(sps, segs)
  {
    if segs == [] then [] else Spelled(sps[0], segs[0]) + Written(sps[1..], segs[1..])
  }

  // ----- a spelling is read ---------------------------------------------

  /** What may follow a segment: not another byte of a name. */
  predicate Ends(rest: Bytes) {
    rest != [] ==> !NameText(rest[..1])
  }

  lemma LeadingAll(a: Bytes, t: Bytes, p: byte -> bool)
    requires (forall i :: 0 <= i < |a| ==> p(a[i])) && (t != [] ==> !p(t[0]))
    ensures Leading(a + t, p) == |a|
  {
    var s := a + t;
    assert forall i :: 0 <= i < |a| ==> p(s[i]);
    assert t != [] ==> s[|a|] == t[0];
  }

  lemma ReadsDotted(seg: Bytes, rest: Bytes)
    requires seg != [] && NameText(seg) && Ends(rest)
    ensures ReadSegment([0x2E] + seg + rest) == Some((seg, rest))
  {
    var s := [0x2E] + seg + rest;
    assert s[1..] == seg + rest;
    assert rest != [] ==> rest[..1][0] == rest[0];
    LeadingAll(seg, rest, NameByte);
    assert s[1..1 + |seg|] == seg && s[1 + |seg|..] == rest;
  }

  lemma ClosedAfter(after: Bytes, rest: Bytes)
    requires SpaceText(after)
    ensures Closed(after + ([0x5D] + rest)) == Some(rest)
  {
    var t := [0x5D] + rest;
    LeadingAll(after, t, Space);
    assert (after + t)[|after|..] == t && t[1..] == rest;
  }

  lemma SkipsSpaces(before: Bytes, t: Bytes)
    requires SpaceText(before) && t != [] && !Space(t[0])
    ensures ReadSegment([0x5B] + (before + t)) == ReadBracket(t)
  {
    var s := [0x5B] + (before + t);
    assert s[1..] == before + t;
    LeadingAll(before, t, Space);
    assert (before + t)[|before|..] == t;
    hide ReadBracket, Leading;
  }

  lemma BareReads(seg: Bytes, t: Bytes)
    requires Spells(Bracketed([], []), seg) && t != [] && !NameByte(t[0])
    ensures BareLength(seg + t) == |seg|
  {
    var s := seg + t;
    var sign := if s[0] == MINUS then 1 else 0;
    var u := Unsigned(seg);
    assert s[sign..] == u + t;
    hide Leading;
    LeadingAll(seg, t, NameByte);
    if u != [] && DigitText(u[..1]) {
      LeadingAll(u, t, Digit);
    } else {
      assert u != [] ==> u[..1][0] == u[0] && !Digit(u[0]);
      LeadingAll([], u + t, Digit);
      assert [] + (u + t) == u + t;
    }
  }

  lemma ReadsBracketed(before: Bytes, after: Bytes, seg: Bytes, rest: Bytes)
    requires Spells(Bracketed(before, after), seg)
    ensures ReadSegment([0x5B] + (before + (seg + (after + ([0x5D] + rest))))) == Some((seg, rest))
  {
    var t := after + ([0x5D] + rest);
    assert t[0] == if after == [] then 0x5D else after[0];
    BareReads(seg, t);
    SkipsSpaces(before, seg + t);
    ClosedAfter(after, rest);
    assert (seg + t)[..|seg|] == seg && (seg + t)[|seg|..] == t;
    hide BareLength, Closed, ReadSegment;
  }

  lemma ReadsMarked(c: Bytes, mark: Mark, quote: byte, more: Bytes)
    requires CharOk(c) && MarkOk(c, mark, quote) && (quote == 0x27 || quote == 0x22)
    ensures ReadKey(MarkedChar(c, mark, quote) + more, quote) == Prefixed(c, ReadKey(more, quote))
  {
    match mark
    case AsIs => ReadsAsIs(c, quote, more);
    case Twice => assert ([quote, quote] + more)[2..] == more;
    case Slashed => ReadsSlashed(c, quote, more);
  }

  lemma ReadsAsIs(c: Bytes, quote: byte, more: Bytes)
    requires CharOk(c) && c != [quote] && c != [0x5C] && Ascii(quote)
    ensures ReadKey(c + more, quote) == Prefixed(c, ReadKey(more, quote))
  {
    var s := c + more;
    hide ReadKey, Pushed;
    PushedChar(c, more);
    KeySkips(c[1..], more, quote);
    assert s[0..] == s && s[1..] == c[1..] + more;
    ReadKeyAt(s, 0, quote);
    assert |c| == 1 ==> c == [c[0]];
  }

  lemma AfterBackslash(t: Bytes, quote: byte)
    requires t != [] && quote != 0x5C
    ensures ReadKey([0x5C] + t, quote) == Prefixed(Pushed(t), ReadKey(t[1..], quote))
  {
    var s := [0x5C] + t;
    hide ReadKey, Pushed, Prefixed;
    assert s[0..] == s && s[1..] == t && s[2..] == t[1..];
    ReadKeyAt(s, 0, quote);
  }

  lemma CharTail(c: Bytes)
    requires CharOk(c)
    ensures c != [] && forall i :: 0 <= i < |c[1..]| ==> Continuation(c[1..][i])
  {
  }

  lemma ReadsSlashed(c: Bytes, quote: byte, more: Bytes)
    requires CharOk(c) && quote != 0x5C && Ascii(quote)
    ensures ReadKey([0x5C] + c + more, quote) == Prefixed(c, ReadKey(more, quote))
  {
    hide ReadKey, Pushed, Prefixed, CharOk, Continuation;
    CharTail(c);
    PushedChar(c, more);
    KeySkips(c[1..], more, quote);
    AfterBackslash(c + more, quote);
    assert (c + more)[1..] == c[1..] + more;
    Assoc([0x5C], c, more);
  }

  lemma {:induction false} ReadsKeyText(chars: seq<Bytes>, marks: seq<Mark>, quote: byte, t: Bytes)
    requires AllOk(chars) && AllMarks(chars, marks, quote) && (quote == 0x27 || quote == 0x22)
    requires t != [] ==> t[0] != quote
    ensures ReadKey(Marked(chars, marks, quote) + ([quote] + t), quote) == Some((Flat(chars), t))
    decreases chars
  {
    hide ReadKey, CharOk, MarkOk, MarkedChar;
    if chars == [] {
      ReadsNoText(quote, t);
    } else {
      var u, tail := [quote] + t, Marked(chars[1..], marks[1..], quote);
      ReadsKeyText(chars[1..], marks[1..], quote, t);
      ReadsMarked(chars[0], marks[0], quote, tail + u);
      Assoc(MarkedChar(chars[0], marks[0], quote), tail, u);
    }
  }

  lemma ReadsNoText(quote: byte, t: Bytes)
    requires quote != 0x5C && (t != [] ==> t[0] != quote)
    ensures ReadKey([] + ([quote] + t), quote) == Some(([], t))
  {
    var u := [quote] + t;
    assert [] + u == u && u[1..] == t;
  }

  lemma Assoc(a: Bytes, b: Bytes, c: Bytes)
    ensures a + b + c == a + (b + c)
  {
  }

  lemma BracketTail(before: Bytes, seg: Bytes, after: Bytes, rest: Bytes)
    ensures [0x5B] + (before + (seg + (after + [0x5D]))) + rest
         == [0x5B] + (before + (seg + (after + ([0x5D] + rest))))
  {
    Assoc([0x5B], before + (seg + (after + [0x5D])), rest);
    Assoc(before, seg + (after + [0x5D]), rest);
    Assoc(seg, after + [0x5D], rest);
    Assoc(after, [0x5D], rest);
  }

  lemma ReadsQuoted(before: Bytes, quote: byte, chars: seq<Bytes>, marks: seq<Mark>, after: Bytes, rest: Bytes)
    requires SpaceText(before) && SpaceText(after) && (quote == 0x27 || quote == 0x22)
    requires AllOk(chars) && AllMarks(chars, marks, quote)
    ensures ReadSegment([0x5B] + (before + ([quote] + (Marked(chars, marks, quote) + ([quote] + (after + ([0x5D] + rest)))))))
         == Some((Flat(chars), rest))
  {
    var m, t := Marked(chars, marks, quote), after + ([0x5D] + rest);
    assert t[0] == if after == [] then 0x5D else after[0];
    hide ReadKey, Closed, ReadSegment, Flat, AllOk, AllMarks, Marked, Leading;
    ReadsKeyText(chars, marks, quote, t);
    var body := [quote] + (m + ([quote] + t));
    SkipsSpaces(before, body);
    ClosedAfter(after, rest);
    assert body[1..] == m + ([quote] + t);
  }

  lemma QuotedTail(before: Bytes, q: Bytes, m: Bytes, after: Bytes, rest: Bytes)
    ensures [0x5B] + (before + (q + (m + (q + (after + [0x5D]))))) + rest
         == [0x5B] + (before + (q + (m + (q + (after + ([0x5D] + rest))))))
  {
    BracketTail(before, q + (m + q), after, rest);
    Joins(q, m, after + [0x5D]);
    Joins(q, m, after + ([0x5D] + rest));
  }

  lemma Joins(q: Bytes, m: Bytes, t: Bytes)
    ensures q + (m + q) + t == q + (m + (q + t))
  {
    Assoc(q, m + q, t);
    Assoc(m, q, t);
  }

  lemma ReadsSpelled(sp: Spelling, seg: Bytes, rest: Bytes)
    requires Spells(sp, seg) && (sp.Dotted? ==> Ends(rest))
    ensures ReadSegment(Spelled(sp, seg) + rest) == Some((seg, rest))
  {
    hide ReadSegment, NameText, SpaceText, DigitText, AllOk, MarkOk, Flat, Ends;
    match sp
    case Dotted => ReadsDotted(seg, rest);
    case Bracketed(before, after) =>
      ReadsBracketed(before, after, seg, rest);
      BracketTail(before, seg, after, rest);
    case Quoted(before, quote, chars, marks, after) =>
      ReadsQuoted(before, quote, chars, marks, after, rest);
      QuotedTail(before, [quote], Marked(chars, marks, quote), after, rest);
  }

  lemma SpelledStart(sp: Spelling, seg: Bytes, rest: Bytes)
    requires Spells(sp, seg)
    ensures Spelled(sp, seg) != [] && Ends(Spelled(sp, seg) + rest)
  {
    var s := Spelled(sp, seg) + rest;
    assert s[..1][0] == (if sp.Dotted? then 0x2E else 0x5B);
  }

  lemma WrittenStart(sps: seq<Spelling>, segs: seq<Bytes>, t: Bytes)
    requires AllSpell(sps, segs) && Ends(t)
    ensures Ends(Written(sps, segs) + t)
  {
    hide Spells, Spelled, Ends;
    if segs == [] {
      assert [] + t == t;
    } else {
      SpelledStart(sps[0], segs[0], Written(sps[1..], segs[1..]) + t);
      Assoc(Spelled(sps[0], segs[0]), Written(sps[1..], segs[1..]), t);
    }
  }

  /** The segments are read, whatever their spelling, and reading goes on
      behind them. */
  lemma {:induction false} ReadsWritten(sps: seq<Spelling>, segs: seq<Bytes>, t: Bytes)
    requires AllSpell(sps, segs) && Ends(t)
    ensures ReadAll(Written(sps, segs) + t) == Joined(segs, ReadAll(t))
    decreases segs
  {
    hide Spells, Spelled, ReadSegment, Ends;
    if segs == [] {
      assert [] + t == t;
      JoinedNothing(ReadAll(t));
    } else {
      var rest := Written(sps[1..], segs[1..]) + t;
      ReadsWritten(sps[1..], segs[1..], t);
      WrittenStart(sps[1..], segs[1..], t);
      ReadsSpelled(sps[0], segs[0], rest);
      SpelledStart(sps[0], segs[0], rest);
      assert Written(sps, segs) + t == Spelled(sps[0], segs[0]) + rest;
      if ReadAll(t).Some? {
        assert [segs[0]] + (segs[1..] + ReadAll(t).value) == segs + ReadAll(t).value;
      }
    }
  }

  lemma SpelledParses(sps: seq<Spelling>, segs: seq<Bytes>)
    requires AllSpell(sps, segs)
    ensures Parse([0x24] + Written(sps, segs)) == Some(segs)
  {
    hide AllSpell, Written, ReadAll;
    ReadsWritten(sps, segs, []);
    ReadAllEmpty();
    assert Written(sps, segs) + [] == Written(sps, segs) && segs + [] == segs;
    assert ([0x24] + Written(sps, segs))[1..] == Written(sps, segs);
  }

  /** A dot that no name follows is refused. */
  lemma DotRefused(sps: seq<Spelling>, segs: seq<Bytes>, rest: Bytes)
    requires AllSpell(sps, segs) && Ends(rest)
    ensures Parse([0x24] + (Written(sps, segs) + ([0x2E] + rest))) == None
  {
    var t := [0x2E] + rest;
    assert t[1..] == rest && (rest != [] ==> rest[..1][0] == rest[0]) && t[..1][0] == 0x2E;
    LeadingAll([], rest, NameByte);
    assert [] + rest == rest;
    assert ReadSegment(t) == None;
    hide AllSpell, Written;
    ReadsWritten(sps, segs, t);
    assert ([0x24] + (Written(sps, segs) + t))[1..] == Written(sps, segs) + t;
  }

  // ----- what is read is a spelling -------------------------------------

  lemma MarkedMore(c: Bytes, mark: Mark, chars: seq<Bytes>, marks: seq<Mark>, quote: byte, t: Bytes)
    requires CharOk(c) && MarkOk(c, mark, quote) && AllOk(chars) && AllMarks(chars, marks, quote)
    ensures AllOk([c] + chars) && AllMarks([c] + chars, [mark] + marks, quote)
    ensures Flat([c] + chars) == c + Flat(chars)
    ensures Marked([c] + chars, [mark] + marks, quote) + t == MarkedChar(c, mark, quote) + (Marked(chars, marks, quote) + t)
  {
    hide CharOk, MarkOk, MarkedChar, Flat;
    FlatCons(c, chars);
    assert ([c] + chars)[1..] == chars && ([mark] + marks)[1..] == marks;
    Assoc(MarkedChar(c, mark, quote), Marked(chars, marks, quote), t);
  }

  /** The first character of a key, how it is marked, and what follows. */
  lemma FirstMarked(s: Bytes, quote: byte) returns (c: Bytes, mark: Mark, r: Bytes)
    requires Valid(s) && (quote == 0x27 || quote == 0x22) && ReadKey(s, quote).Some? && s != []
    requires s[0] == quote ==> |s| > 1 && s[1] == quote
    ensures CharOk(c) && MarkOk(c, mark, quote) && s == MarkedChar(c, mark, quote) + r && Valid(r) && |r| < |s|
  {
    LoneBackslash(s, quote);
    AfterFirst(s);
    hide Valid, ReadKey, CharOk, Mid, Pushed;
    if s[0] == 0x5C {
      c, r := CharSplit(s[1..]);
      mark := Slashed;
      assert s == [0x5C] + s[1..];
      Assoc([0x5C], c, r);
    } else if s[0] == quote {
      AfterFirst(s[1..]);
      assert s[1..][1..] == s[2..];
      c, mark, r := [quote], Twice, s[2..];
      OneByte(quote);
      assert s == [quote, quote] + s[2..];
    } else {
      c, r := CharSplit(s);
      mark := AsIs;
      assert c[0] == s[0];
    }
  }

  lemma OneByte(b: byte)
    requires Ascii(b)
    ensures CharOk([b])
  {
  }

  lemma CharSplit(s: Bytes) returns (c: Bytes, r: Bytes)
    requires Valid(s) && s != []
    ensures c != [] && CharOk(c) && Valid(r) && s == c + r
  {
    FirstChar(s);
    c, r := s[..Width(s[0])], s[Width(s[0])..];
  }

  /** A key does not end in a backslash. */
  lemma LoneBackslash(s: Bytes, quote: byte)
    requires s != [] && ReadKey(s, quote).Some? && quote != 0x5C
    ensures s[0] == 0x5C ==> |s| > 1
  {
  }

  lemma {:induction false} KeySpelled(s: Bytes, quote: byte) returns (chars: seq<Bytes>, marks: seq<Mark>)
    requires Valid(s) && (quote == 0x27 || quote == 0x22) && ReadKey(s, quote).Some?
    ensures AllOk(chars) && AllMarks(chars, marks, quote)
    ensures var (key, t) := ReadKey(s, quote).value;
      Flat(chars) == key && s == Marked(chars, marks, quote) + ([quote] + t)
    decreases |s|
  {
    if s[0] == quote && !(|s| > 1 && s[1] == quote) {
      chars, marks := [], [];
      assert s == [] + ([quote] + s[1..]);
    } else {
      var c, mark, r := FirstMarked(s, quote);
      ReadsMarked(c, mark, quote, r);
      hide Valid, ReadKey, CharOk, MarkOk, MarkedChar, Marked, Flat, AllOk, AllMarks;
      chars, marks := KeySpelled(r, quote);
      MarkedMore(c, mark, chars, marks, quote, [quote] + ReadKey(r, quote).value.1);
      chars, marks := [c] + chars, [mark] + marks;
    }
  }

  lemma SpacesSplit(s: Bytes) returns (before: Bytes)
    ensures SpaceText(before) && s == before + SkipSpaces(s)
  {
    before := s[..Leading(s, Space)];
  }

  lemma ClosedSplit(s: Bytes) returns (after: Bytes)
    requires Closed(s).Some?
    ensures SpaceText(after) && s == after + ([0x5D] + Closed(s).value)
  {
    after := SpacesSplit(s);
    var t := SkipSpaces(s);
    assert t == [0x5D] + t[1..];
  }

  lemma BareSplit(s: Bytes, before: Bytes, after: Bytes)
    requires s != [] && BareLength(s) > 0 && SpaceText(before) && SpaceText(after)
    ensures Spells(Bracketed(before, after), s[..BareLength(s)])
  {
    var n := BareLength(s);
    var seg, sign := s[..n], if s[0] == MINUS then 1 else 0;
    var digits := Leading(s[sign..], Digit);
    assert Unsigned(seg) == s[sign..n];
    if digits > 0 {
      forall i | sign <= i < n
        ensures Digit(s[i])
      {
        assert s[i] == s[sign..][i - sign];
      }
    } else {
      assert forall i :: 0 <= i < n ==> NameByte(s[i]);
      if sign < n {
        assert s[sign..n][..1][0] == s[sign] == s[sign..][0];
      }
    }
  }

  lemma BracketSpelled(s: Bytes, before: Bytes) returns (sp: Spelling)
    requires Valid(s) && ReadBracket(s).Some? && SpaceText(before)
    ensures var (seg, rest) := ReadBracket(s).value;
      !sp.Dotted? && Spells(sp, seg) && [0x5B] + (before + s) == Spelled(sp, seg) + rest
  {
    hide Valid, ReadKey, BareLength, Closed;
    var (seg, rest) := ReadBracket(s).value;
    if s[0] == APOSTROPHE || s[0] == QUOTE {
      var quote := s[0];
      AfterFirst(s);
      var chars, marks := KeySpelled(s[1..], quote);
      var after := ClosedSplit(ReadKey(s[1..], quote).value.1);
      sp := Quoted(before, quote, chars, marks, after);
      QuotedTail(before, [quote], Marked(chars, marks, quote), after, rest);
      assert s == [quote] + s[1..];
    } else {
      var n := BareLength(s);
      var after := ClosedSplit(s[n..]);
      BareSplit(s, before, after);
      sp := Bracketed(before, after);
      BracketTail(before, seg, after, rest);
      assert s == s[..n] + s[n..];
    }
  }

  lemma SegmentSpelled(s: Bytes) returns (sp: Spelling)
    requires Valid(s) && s != [] && ReadSegment(s).Some?
    ensures var (seg, rest) := ReadSegment(s).value;
      Spells(sp, seg) && s == Spelled(sp, seg) + rest
  {
    if s[0] == DOT {
      sp := Dotted;
      DottedSplit(s);
    } else {
      AfterFirst(s);
      var before := SpacesSplit(s[1..]);
      SpacesValid(s[1..], before);
      assert s == [0x5B] + s[1..];
      hide Valid, ReadBracket, SkipSpaces, Spells, Spelled;
      sp := BracketSpelled(SkipSpaces(s[1..]), before);
    }
  }

  lemma DottedSplit(s: Bytes)
    requires s != [] && s[0] == DOT && ReadSegment(s).Some?
    ensures var (seg, rest) := ReadSegment(s).value;
      seg != [] && NameText(seg) && s == [0x2E] + seg + rest
  {
    var n := Leading(s[1..], NameByte);
    var seg := s[1..1 + n];
    assert forall i :: 0 <= i < n ==> seg[i] == s[1..][i] && NameByte(seg[i]);
    assert s == [0x2E] + seg + s[1 + n..];
    hide Leading;
  }

  lemma SpacesValid(s: Bytes, before: Bytes)
    requires Valid(s) && SpaceText(before) && s == before + SkipSpaces(s)
    ensures Valid(SkipSpaces(s))
  {
    hide Valid;
    AsciiFront(s, |before|);
    assert s[|before|..] == SkipSpaces(s);
  }

  lemma {:induction false} ReadIsWritten(s: Bytes) returns (sps: seq<Spelling>)
    requires Valid(s) && ReadAll(s).Some?
    ensures AllSpell(sps, ReadAll(s).value) && Written(sps, ReadAll(s).value) == s
    decreases |s|
  {
    hide Valid, ReadSegment, Spells, Spelled;
    sps := [];
    if s != [] {
      var (seg, rest) := ReadSegment(s).value;
      SegmentValid(s);
      var sp := SegmentSpelled(s);
      sps := ReadIsWritten(rest);
      var segs := ReadAll(rest).value;
      assert ([sp] + sps)[1..] == sps && ([seg] + segs)[1..] == segs;
      sps := [sp] + sps;
    }
  }

  /** A path of text is read as these segments exactly when it is a dollar sign
      and a spelling of them. */
  lemma ParseIsSpelling(path: Bytes, segs: seq<Bytes>)
    requires Valid(path)
    ensures Parse(path) == Some(segs)
      <==> exists sps :: AllSpell(sps, segs) && path == [0x24] + Written(sps, segs)
  {
    hide Valid, ReadAll, AllSpell, Written;
    if Parse(path) == Some(segs) {
      AfterFirst(path);
      var sps := ReadIsWritten(path[1..]);
      assert path == [0x24] + path[1..];
    }
    if sps :| AllSpell(sps, segs) && path == [0x24] + Written(sps, segs) {
      SpelledParses(sps, segs);
    }
  }

  // ----- what is printed as an index ------------------------------------

  function Decimals(n: nat): Bytes {
    if n < 10 then [(0x30 + n) as byte] else Decimals(n / 10) + [(0x30 + n % 10) as byte]
  }

  lemma {:induction false} DecimalsRead(n: nat)
    ensures JsonPath.AllDigits(Decimals(n)) && Value(Decimals(n)) == n
  {
    var d := Decimals(n);
    if n < 10 {
      assert d[..0] == [];
    } else {
      DecimalsRead(n / 10);
      assert d[..|d| - 1] == Decimals(n / 10);
    }
  }

  lemma {:induction false} PlainEscape(s: Bytes)
    requires 0x5C !in s && 0x22 !in s
    ensures Escape(s) == s
  {
    hide Escape;
    if s != [] {
      PlainEscape(s[1..]);
      EscapeCons(s[0], s[1..]);
      assert s == [s[0]] + s[1..];
    } else {
      EscapeNothing();
    }
  }

  lemma EscapeNothing()
    ensures Escape([]) == []
  {
  }

  /** An integer of 64 bits is printed as an index, one beyond as a key. */
  lemma IndexPrinted(n: nat)
    ensures Step(Decimals(n)) ==
      if n <= 0x7FFF_FFFF_FFFF_FFFF then [0x5B] + Decimals(n) + [0x5D]
      else [0x5B, 0x22] + Decimals(n) + [0x22, 0x5D]
    ensures Step([0x2D] + Decimals(n)) ==
      if n <= 0x8000_0000_0000_0000 then [0x5B] + ([0x2D] + Decimals(n)) + [0x5D]
      else [0x5B, 0x22] + ([0x2D] + Decimals(n)) + [0x22, 0x5D]
  {
    var d := Decimals(n);
    DecimalsRead(n);
    hide Value, Escape, Decimals;
    assert forall b :: b in d ==> Digit(b);
    PlainEscape(d);
    PlainEscape([0x2D] + d);
    assert ([0x2D] + d)[1..] == d;
  }

  /** So is every segment with a byte that is no digit, a sign in front apart. */
  lemma KeyPrinted(seg: Bytes, i: nat)
    requires i < |seg| && !(0x30 <= seg[i] <= 0x39) && (i > 0 || (seg[0] != 0x2D && seg[0] != 0x2B))
    ensures Step(seg) == [0x5B, 0x22] + Escape(seg) + [0x22, 0x5D]
  {
    hide Value;
    assert i > 0 ==> seg[1..][i - 1] == seg[i];
  }
}
