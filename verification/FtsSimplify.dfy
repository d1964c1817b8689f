/** `simplify_fts_for_sqlite`: the full-text joins and MATCH clauses of a
    statement taken out, by cutting and replacing ranges of its text. */
module FtsSimplify {
  import opened Common
  import opened Utf8
  import opened ReplaceIcase

  // ----- text constants -------------------------------------------------

  function ByteOf(c: char): byte {
    if c as int < 128 then c as int as byte else 0x3F
  }

  /** The bytes of an ASCII constant. */
  function Text(s: string): (b: Bytes)
    ensures |b| == |s| && forall i :: 0 <= i < |s| ==> b[i] == ByteOf(s[i])
  {
    seq(|s|, i requires 0 <= i < |s| => ByteOf(s[i]))
  }

  const SPACE: byte := 0x20
  const QUOTE: byte := 0x27

  /** In the order the passes run. */
  function JoinPatterns(): seq<Bytes> {
    [Text("join fts4_metadata_titles_icu"), Text("join fts4_metadata_titles"),
     Text("join fts4_tag_titles_icu"), Text("join fts4_tag_titles")]
  }

  function EndKeywords(): seq<Bytes> {
    [Text(" where "), Text(" join "), Text(" left "), Text(" group "), Text(" order ")]
  }

  function MatchPatterns(): (ps: seq<Bytes>)
    ensures |ps| == 8
  {
    [Text("fts4_metadata_titles_icu.title match "), Text("fts4_metadata_titles_icu.title_sort match "),
     Text("fts4_metadata_titles.title match "), Text("fts4_metadata_titles.title_sort match "),
     Text("fts4_tag_titles_icu.title match "), Text("fts4_tag_titles_icu.tag match "),
     Text("fts4_tag_titles.title match "), Text("fts4_tag_titles.tag match ")]
  }

  // ----- occurrences ----------------------------------------------------

  /** The lowercase ASCII pattern, in any case, at index i. */
  predicate At(s: Bytes, i: nat, pat: Bytes) {
    i + |pat| <= |s| && forall k :: 0 <= k < |pat| ==> Lower(s[i + k]) == pat[k]
  }

  ghost predicate Occurs(s: Bytes, pat: Bytes) {
    exists i :: At(s, i, pat)
  }

  ghost predicate First(s: Bytes, pat: Bytes, from: nat, i: nat) {
    from <= i && At(s, i, pat) && forall k :: from <= k < i ==> !At(s, k, pat)
  }

  /** The leftmost occurrence at or after from. */
  function FirstFrom(s: Bytes, pat: Bytes, from: nat): (r: Option<nat>)
    requires pat != []
    ensures r.Some? ==> r.value < |s| && First(s, pat, from, r.value)
    ensures r.None? ==> forall k :: from <= k ==> !At(s, k, pat)
    decreases |s| - from
  {
    if from + |pat| > |s| then None
    else if At(s, from, pat) then Some(from)
    else FirstFrom(s, pat, from + 1)
  }

  method Find(s: Bytes, pat: Bytes, from: nat) returns (r: Option<nat>)
    requires pat != [] && Boundary(s, from)
    ensures r == FirstFrom(s, pat, from)
  {
    hide At;
    var i := from;
    while i + |pat| <= |s|
      invariant from <= i
      invariant FirstFrom(s, pat, i) == FirstFrom(s, pat, from)
    {
      if At(s, i, pat) {
        return Some(i);
      }
      i := i + 1;
    }
    return None;
  }

  // ----- the two rewrites -----------------------------------------------

  predicate KeywordAt(s: Bytes, j: nat) {
    exists n :: 0 <= n < |EndKeywords()| && At(s, j, EndKeywords()[n])
  }

  /** A join clause runs up to the next end keyword, or to the end. */
  ghost predicate JoinEnd(s: Bytes, i: nat, j: nat) {
    && i < j <= |s|
    && (j == |s| || KeywordAt(s, j))
    && (forall k :: i < k < j ==> !KeywordAt(s, k))
  }

  /** The next end keyword, or the end. */
  function NextKeyword(s: Bytes, k: nat): (j: nat)
    requires k <= |s|
    ensures k <= j <= |s| && (j == |s| || KeywordAt(s, j))
    ensures forall m :: k <= m < j ==> !KeywordAt(s, m)
    decreases |s| - k
  {
    if k == |s| || KeywordAt(s, k) then k else NextKeyword(s, k + 1)
  }

  lemma JoinEndIs(s: Bytes, i: nat, j: nat)
    requires JoinEnd(s, i, j)
    ensures NextKeyword(s, i + 1) == j
  {
    hide KeywordAt;
    var k := NextKeyword(s, i + 1);
    assert k == |s| || KeywordAt(s, k);
  }

  /** Every join of a pattern cut out, the leftmost first. */
  function WithoutJoins(s: Bytes, pat: Bytes): Bytes
    requires pat != []
    decreases |s|
  {
    match FirstFrom(s, pat, 0)
    case None => s
    case Some(i) => WithoutJoins(s[..i] + s[NextKeyword(s, i + 1)..], pat)
  }

  /** Where the literal whose text begins at i closes; a doubled quote is a
      quote inside. */
  function CloseQuote(s: Bytes, i: nat): (r: Option<nat>)
    ensures r.Some? ==> i <= r.value < |s| && s[r.value] == QUOTE
    decreases |s| - i
  {
    if i >= |s| then None
    else if s[i] != QUOTE then CloseQuote(s, i + 1)
    else if i + 1 < |s| && s[i + 1] == QUOTE then CloseQuote(s, i + 2)
    else Some(i)
  }

  function FirstQuote(s: Bytes, i: nat): (r: Option<nat>)
    ensures r.Some? ==> i <= r.value < |s| && s[r.value] == QUOTE
    decreases |s| - i
  {
    if i >= |s| then None else if s[i] == QUOTE then Some(i) else FirstQuote(s, i + 1)
  }

  /** Where the first literal at or after i closes, if it opens and closes. */
  function LiteralEnd(s: Bytes, i: nat): (r: Option<nat>)
    ensures r.Some? ==> i <= r.value < |s| && s[r.value] == QUOTE
  {
    match FirstQuote(s, i)
    case None => None
    case Some(q) => CloseQuote(s, q + 1)
  }

  function OneIsZero(): Bytes {
    Text("1=0")
  }

  /** What the proofs need of a MATCH pattern. */
  predicate MatchShaped(pat: Bytes) {
    |pat| > 3 && Ascii(pat[0]) && QUOTE !in pat && LowerCase(pat)
  }

  /** No byte is an upper case letter. */
  predicate LowerCase(pat: Bytes) {
    forall k :: 0 <= k < |pat| ==> !(0x41 <= pat[k] <= 0x5A)
  }

  lemma {:induction false} QuoteNotBefore(s: Bytes, i: nat, j: nat)
    requires i <= j <= |s| && forall k :: i <= k < j ==> s[k] != QUOTE
    ensures FirstQuote(s, i) == FirstQuote(s, j)
    decreases j - i
  {
    if i < j {
      QuoteNotBefore(s, i + 1, j);
    }
  }

  /** A literal after a MATCH pattern lies wholly behind it. */
  lemma LiteralBehind(s: Bytes, i: nat, pat: Bytes)
    requires MatchShaped(pat) && At(s, i, pat) && LiteralEnd(s, i).Some?
    ensures LiteralEnd(s, i).value + 1 - i > 3
  {
    forall k | i <= k < i + |pat|
      ensures s[k] != QUOTE
    {
      assert Lower(s[i + (k - i)]) == pat[k - i];
      assert pat[k - i] in pat;
    }
    QuoteNotBefore(s, i, i + |pat|);
  }

  /** The MATCH clauses of a pattern, each up to the end of its literal, made
      `1=0`: the leftmost first, until it has no complete literal. */
  function WithoutMatches(s: Bytes, pat: Bytes): Bytes
    requires MatchShaped(pat)
    decreases |s|
  {
    match FirstFrom(s, pat, 0)
    case None => s
    case Some(i) =>
      match LiteralEnd(s, i)
      case None => s
      case Some(e) =>
        LiteralBehind(s, i, pat);
        WithoutMatches(s[..i] + OneIsZero() + s[e + 1..], pat)
  }

  function JoinsCut(s: Bytes, n: nat): Bytes
    requires n <= 4
    decreases 4 - n
  {
    if n == 4 then s
    else
      JoinPatternsShaped(n);
      JoinsCut(WithoutJoins(s, JoinPatterns()[n]), n + 1)
  }

  function MatchesCut(s: Bytes, n: nat): Bytes
    requires n <= 8
    decreases 8 - n
  {
    if n == 8 then s
    else
      MatchPatternsShaped(n);
      MatchesCut(WithoutMatches(s, MatchPatterns()[n]), n + 1)
  }

  function Simplified(sql: Bytes): Bytes {
    MatchesCut(JoinsCut(sql, 0), 0)
  }

  // ----- no rewrite makes a new join ------------------------------------

  /** What the proofs need of a join pattern: one space, before an f, and
      none of the characters of `1=0`. */
  predicate JoinShaped(pat: Bytes) {
    && |pat| > 5
    && pat[0] == 0x6A && pat[4] == SPACE && pat[5] == 0x66
    && (forall k :: 0 <= k < |pat| && k != 4 ==> pat[k] != SPACE)
    && (forall k :: 0 <= k < |pat| ==> pat[k] != 0x30 && pat[k] != 0x31 && pat[k] != 0x3D)
  }

  predicate JoinText(s: string) {
    && |s| > 5 && s[0] == 'j' && s[4] == ' ' && s[5] == 'f'
    && (forall k :: 0 <= k < |s| ==> 'a' <= s[k] <= 'z' || s[k] == '_' || s[k] == '4' || (k == 4 && s[k] == ' '))
  }

  lemma JoinTextShaped(s: string)
    requires JoinText(s)
    ensures JoinShaped(Text(s))
  {
  }

  lemma JoinPatternsShaped(n: nat)
    requires n < 4
    ensures JoinShaped(JoinPatterns()[n])
  {
    hide JoinShaped, JoinText;
    JoinTexts();
    JoinTextShaped("join fts4_metadata_titles_icu");
    JoinTextShaped("join fts4_metadata_titles");
    JoinTextShaped("join fts4_tag_titles_icu");
    JoinTextShaped("join fts4_tag_titles");
  }

  lemma JoinTexts()
    ensures JoinText("join fts4_metadata_titles_icu") && JoinText("join fts4_metadata_titles")
    ensures JoinText("join fts4_tag_titles_icu") && JoinText("join fts4_tag_titles")
  {
  }

  /** An end keyword is a space and then no f. */
  lemma KeywordShape(s: Bytes, j: nat)
    requires KeywordAt(s, j)
    ensures j + 1 < |s| && s[j] == SPACE && Lower(s[j + 1]) != 0x66
  {
    var n :| 0 <= n < |EndKeywords()| && At(s, j, EndKeywords()[n]);
    var kw := EndKeywords()[n];
    assert kw[0] == SPACE && kw[1] != 0x66 && |kw| > 1;
    assert Lower(s[j + 0]) == kw[0] && Lower(s[j + 1]) == kw[1];
  }

  /** No join pattern straddles a cut that ends at a keyword. */
  lemma NoneAcrossCut(s: Bytes, i: nat, j: nat, pat: Bytes, k: nat)
    requires JoinShaped(pat) && i < j <= |s| && (j == |s| || KeywordAt(s, j)) && k < i < k + |pat|
    ensures !At(s[..i] + s[j..], k, pat)
  {
    var t := s[..i] + s[j..];
    if k + |pat| <= |t| {
      KeywordShape(s, j);
      assert t[i] == s[j] && t[i + 1] == s[j + 1];
      if i - k != 4 {
        assert Lower(t[k + (i - k)]) != pat[i - k];
      } else {
        assert Lower(t[k + 5]) != pat[5];
      }
    }
  }

  lemma CutMakesNone(s: Bytes, i: nat, j: nat, pat: Bytes, k: nat)
    requires JoinShaped(pat) && i < j <= |s| && (j == |s| || KeywordAt(s, j))
    ensures At(s[..i] + s[j..], k, pat) ==> Occurs(s, pat)
  {
    var t := s[..i] + s[j..];
    if !At(t, k, pat) {
    } else if k + |pat| <= i {
      forall m | 0 <= m < |pat|
        ensures Lower(s[k + m]) == pat[m]
      {
        assert s[k + m] == t[k + m];
      }
      assert At(s, k, pat);
    } else if i <= k {
      forall m | 0 <= m < |pat|
        ensures Lower(s[k + (j - i) + m]) == pat[m]
      {
        assert s[k + (j - i) + m] == t[k + m];
      }
      assert At(s, k + (j - i), pat);
    } else {
      NoneAcrossCut(s, i, j, pat, k);
      assert false;
    }
  }

  lemma NoneAcrossOneIsZero(before: Bytes, after: Bytes, pat: Bytes, k: nat)
    requires JoinShaped(pat) && k < |before| + 3 && |before| < k + |pat|
    ensures !At(before + OneIsZero() + after, k, pat)
  {
    var t, m := before + OneIsZero() + after, Max(|before|, k);
    if k + |pat| <= |t| {
      assert t[m] == OneIsZero()[m - |before|];
      assert Lower(t[k + (m - k)]) != pat[m - k];
    }
  }

  lemma ReplaceMakesNone(s: Bytes, i: nat, e: nat, pat: Bytes, k: nat)
    requires JoinShaped(pat) && i <= e < |s| && e + 1 - i >= 3
    ensures At(s[..i] + OneIsZero() + s[e + 1..], k, pat) ==> Occurs(s, pat)
  {
    var t := s[..i] + OneIsZero() + s[e + 1..];
    if !At(t, k, pat) {
    } else if k + |pat| <= i {
      forall m | 0 <= m < |pat|
        ensures Lower(s[k + m]) == pat[m]
      {
        assert s[k + m] == t[k + m];
      }
      assert At(s, k, pat);
    } else if i + 3 <= k {
      var shift := e + 1 - (i + 3);
      forall m | 0 <= m < |pat|
        ensures Lower(s[k + shift + m]) == pat[m]
      {
        assert s[k + shift + m] == t[k + m];
      }
      assert At(s, k + shift, pat);
    } else {
      NoneAcrossOneIsZero(s[..i], s[e + 1..], pat, k);
      assert false;
    }
  }

  // ----- the passes -----------------------------------------------------

  /** None of the first n join patterns occurs. */
  ghost predicate NoJoins(s: Bytes, n: nat) {
    forall m :: 0 <= m < n && m < 4 ==> !Occurs(s, JoinPatterns()[m])
  }

  lemma CutKeepsNoJoins(s: Bytes, i: nat, j: nat, n: nat)
    requires NoJoins(s, n) && JoinEnd(s, i, j)
    ensures NoJoins(s[..i] + s[j..], n)
  {
    forall m | 0 <= m < n && m < 4
      ensures !Occurs(s[..i] + s[j..], JoinPatterns()[m])
    {
      JoinPatternsShaped(m);
      forall k: nat
        ensures !At(s[..i] + s[j..], k, JoinPatterns()[m])
      {
        CutMakesNone(s, i, j, JoinPatterns()[m], k);
      }
    }
  }

  lemma ReplaceKeepsNoJoins(s: Bytes, i: nat, e: nat, n: nat)
    requires NoJoins(s, n) && i <= e < |s| && e + 1 - i >= 3
    ensures NoJoins(s[..i] + OneIsZero() + s[e + 1..], n)
  {
    var t := s[..i] + OneIsZero() + s[e + 1..];
    forall m | 0 <= m < n && m < 4
      ensures !Occurs(t, JoinPatterns()[m])
    {
      JoinPatternsShaped(m);
      forall k: nat
        ensures !At(t, k, JoinPatterns()[m])
      {
        ReplaceMakesNone(s, i, e, JoinPatterns()[m], k);
      }
    }
  }

  /** A pattern that begins with an ASCII character stands between
      characters. */
  lemma FoundAtBoundary(s: Bytes, i: nat, pat: Bytes)
    requires Valid(s) && At(s, i, pat) && pat != [] && Ascii(pat[0])
    ensures i < |s| && Boundary(s, i) && Boundary(s, i + 1)
  {
    assert Lower(s[i + 0]) == pat[0];
    AfterAscii(s, i);
  }

  lemma KeywordBoundary(s: Bytes, j: nat)
    requires Valid(s) && (j == |s| || KeywordAt(s, j))
    ensures Boundary(s, j)
  {
    if j != |s| {
      KeywordShape(s, j);
    }
  }

  lemma EndKeyword(n: nat)
    requires n < |EndKeywords()|
    ensures EndKeywords()[n] != []
  {
  }

  /** The end of the join clause that begins at i: the nearest of the five
      keywords' first occurrences after it. */
  method FindJoinEnd(s: Bytes, i: nat) returns (j: nat)
    requires i < |s| && Boundary(s, i + 1)
    ensures j == NextKeyword(s, i + 1)
  {
    j := |s|;
    for n := 0 to |EndKeywords()|
      invariant i < j <= |s| && (j == |s| || KeywordAt(s, j))
      invariant forall k, m :: i < k < j && 0 <= m < n ==> !At(s, k, EndKeywords()[m])
    {
      hide At;
      EndKeyword(n);
      var pos := Find(s, EndKeywords()[n], i + 1);
      if pos.Some? && pos.value < j {
        assert KeywordAt(s, pos.value);
        j := pos.value;
      }
    }
    JoinEndIs(s, i, j);
  }

  /** Each cut makes the text shorter. */
  method CutJoins(s: Bytes, pat: Bytes) returns (t: Bytes)
    requires JoinShaped(pat) && Valid(s)
    ensures Valid(t) && t == WithoutJoins(s, pat)
  {
    hide Valid, At, FirstFrom, KeywordAt;
    t := s;
    Edge(t);
    var found := Find(t, pat, 0);
    while found.Some?
      invariant Valid(t) && found == FirstFrom(t, pat, 0)
      invariant WithoutJoins(t, pat) == WithoutJoins(s, pat)
      decreases |t|
    {
      var i := found.value;
      FoundAtBoundary(t, i, pat);
      var j := FindJoinEnd(t, i);
      KeywordBoundary(t, j);
      ValidAfterCut(t, i, j);
      t := t[..i] + t[j..];
      Edge(t);
      found := Find(t, pat, 0);
    }
  }

  lemma ValidAfterCut(s: Bytes, i: nat, j: nat)
    requires Valid(s) && Boundary(s, i) && Boundary(s, j)
    ensures Valid(s[..i] + s[j..])
  {
    ValidCut(s, i);
    ValidCut(s, j);
    ValidJoin(s[..i], s[j..]);
  }

  lemma Edge(s: Bytes)
    requires Valid(s)
    ensures Boundary(s, 0)
  {
    if s != [] {
      assert s[..Width(s[0])][0] == s[0];
    }
  }

  predicate PlainText(s: string) {
    |s| > 3 && forall k :: 0 <= k < |s| ==> 'a' <= s[k] <= 'z' || s[k] == '_' || s[k] == '.' || s[k] == ' ' || s[k] == '4'
  }

  lemma PlainTextShaped(s: string)
    requires PlainText(s)
    ensures MatchShaped(Text(s))
  {
  }

  lemma MatchTexts1()
    ensures PlainText("fts4_metadata_titles_icu.title match ") && PlainText("fts4_metadata_titles_icu.title_sort match ")
  {
  }

  lemma MatchTexts2()
    ensures PlainText("fts4_metadata_titles.title match ") && PlainText("fts4_metadata_titles.title_sort match ")
  {
  }

  lemma MatchTexts3()
    ensures PlainText("fts4_tag_titles_icu.title match ") && PlainText("fts4_tag_titles_icu.tag match ")
  {
  }

  lemma MatchTexts4()
    ensures PlainText("fts4_tag_titles.title match ") && PlainText("fts4_tag_titles.tag match ")
  {
  }

  lemma MatchPatternsShaped(n: nat)
    requires n < 8
    ensures MatchShaped(MatchPatterns()[n])
  {
    hide MatchShaped, PlainText;
    MatchTexts1();
    MatchTexts2();
    MatchTexts3();
    MatchTexts4();
    PlainTextShaped("fts4_metadata_titles_icu.title match ");
    PlainTextShaped("fts4_metadata_titles_icu.title_sort match ");
    PlainTextShaped("fts4_metadata_titles.title match ");
    PlainTextShaped("fts4_metadata_titles.title_sort match ");
    PlainTextShaped("fts4_tag_titles_icu.title match ");
    PlainTextShaped("fts4_tag_titles_icu.tag match ");
    PlainTextShaped("fts4_tag_titles.title match ");
    PlainTextShaped("fts4_tag_titles.tag match ");
  }

  /** Where the first literal at or after i closes, found in two scans. */
  method FindLiteralEnd(s: Bytes, i: nat) returns (r: Option<nat>)
    ensures r == LiteralEnd(s, i)
  {
    var q := i;
    while q < |s| && s[q] != QUOTE
      invariant FirstQuote(s, q) == FirstQuote(s, i)
    {
      q := q + 1;
    }
    if q >= |s| {
      return None;
    }
    var k := q + 1;
    while k < |s|
      invariant CloseQuote(s, k) == CloseQuote(s, q + 1)
    {
      if s[k] == QUOTE {
        if k + 1 < |s| && s[k + 1] == QUOTE {
          k := k + 2;
          continue;
        }
        return Some(k);
      }
      k := k + 1;
    }
    return None;
  }

  lemma ValidAfterReplace(s: Bytes, i: nat, e: nat)
    requires Valid(s) && Boundary(s, i) && i <= e < |s| && s[e] == QUOTE
    ensures Valid(s[..i] + OneIsZero() + s[e + 1..])
  {
    AfterAscii(s, e);
    ValidCut(s, i);
    ValidCut(s, e + 1);
    AsciiValid(OneIsZero());
    hide Valid;
    ValidJoin(s[..i], OneIsZero());
    ValidJoin(s[..i] + OneIsZero(), s[e + 1..]);
  }

  lemma MatchStep(s: Bytes, pat: Bytes, i: nat)
    requires MatchShaped(pat) && FirstFrom(s, pat, 0) == Some(i)
    ensures WithoutMatches(s, pat) ==
      match LiteralEnd(s, i)
      case None => s
      case Some(e) => WithoutMatches(s[..i] + OneIsZero() + s[e + 1..], pat)
  {
    hide FirstFrom, LiteralEnd, OneIsZero, MatchShaped, At;
  }

  lemma NoMatch(s: Bytes, pat: Bytes)
    requires MatchShaped(pat) && FirstFrom(s, pat, 0).None?
    ensures WithoutMatches(s, pat) == s
  {
    hide FirstFrom, LiteralEnd, OneIsZero, MatchShaped, At;
  }

  lemma ShorterBy(s: Bytes, i: nat, e: nat)
    requires i <= e < |s| && e + 1 - i > 3
    ensures |s[..i] + OneIsZero() + s[e + 1..]| < |s|
  {
  }

  lemma MatchBoundary(s: Bytes, i: nat, pat: Bytes)
    requires Valid(s) && MatchShaped(pat) && At(s, i, pat)
    ensures i < |s| && Boundary(s, i)
  {
    FoundAtBoundary(s, i, pat);
  }

  /** Each replacement makes the text shorter. */
  method ReplaceMatches(s: Bytes, pat: Bytes) returns (t: Bytes)
    requires MatchShaped(pat) && Valid(s)
    ensures Valid(t) && t == WithoutMatches(s, pat)
  {
    hide Valid, At, FirstFrom, LiteralEnd, WithoutMatches, OneIsZero;
    t := s;
    Edge(t);
    var found := Find(t, pat, 0);
    while found.Some?
      invariant Valid(t) && found == FirstFrom(t, pat, 0)
      invariant WithoutMatches(t, pat) == WithoutMatches(s, pat)
      decreases |t|
    {
      var i := found.value;
      MatchBoundary(t, i, pat);
      MatchStep(t, pat, i);
      var literal := FindLiteralEnd(t, i);
      if literal.None? {
        return;
      }
      var e := literal.value;
      LiteralBehind(t, i, pat);
      ValidAfterReplace(t, i, e);
      ShorterBy(t, i, e);
      t := t[..i] + OneIsZero() + t[e + 1..];
      Edge(t);
      found := Find(t, pat, 0);
    }
    NoMatch(t, pat);
  }

  /** None when no full-text table is named, otherwise the simplified text.
      Every cut is between characters. */
  method Simplify(sql: Bytes) returns (r: Option<Bytes>)
    requires Valid(sql)
    ensures r == if Occurs(sql, Text("fts4_")) then Some(Simplified(sql)) else None
    ensures r.Some? ==> Valid(r.value)
  {
    Edge(sql);
    var named := Find(sql, Text("fts4_"), 0);
    if named.None? {
      return None;
    }
    assert Occurs(sql, Text("fts4_"));
    hide Valid, At, WithoutJoins, WithoutMatches, JoinsCut, MatchesCut, JoinShaped, MatchShaped;
    var t := sql;
    for n := 0 to 4
      invariant Valid(t) && JoinsCut(t, n) == JoinsCut(sql, 0)
    {
      JoinPatternsShaped(n);
      JoinsStep(t, n);
      t := CutJoins(t, JoinPatterns()[n]);
    }
    CutsEnd(t);
    ghost var u := t;
    for n := 0 to 8
      invariant Valid(t) && MatchesCut(t, n) == MatchesCut(u, 0)
    {
      MatchPatternsShaped(n);
      MatchesStep(t, n);
      t := ReplaceMatches(t, MatchPatterns()[n]);
    }
    CutsEnd(t);
    return Some(t);
  }

  lemma JoinsStep(s: Bytes, n: nat)
    requires n < 4
    ensures JoinPatterns()[n] != []
    ensures JoinsCut(s, n) == JoinsCut(WithoutJoins(s, JoinPatterns()[n]), n + 1)
  {
    JoinPatternsShaped(n);
    hide WithoutJoins, JoinPatterns;
  }

  lemma MatchesStep(s: Bytes, n: nat)
    requires n < 8
    ensures MatchShaped(MatchPatterns()[n])
    ensures MatchesCut(s, n) == MatchesCut(WithoutMatches(s, MatchPatterns()[n]), n + 1)
  {
    MatchPatternsShaped(n);
    hide WithoutMatches, MatchPatterns, MatchShaped;
  }

  lemma CutsEnd(s: Bytes)
    ensures JoinsCut(s, 4) == s && MatchesCut(s, 8) == s
  {
  }

  // ----- what is left ---------------------------------------------------

  lemma {:induction false} JoinPassKeeps(s: Bytes, pat: Bytes, n: nat)
    requires pat != [] && NoJoins(s, n)
    ensures NoJoins(WithoutJoins(s, pat), n) && !Occurs(WithoutJoins(s, pat), pat)
    decreases |s|
  {
    hide NoJoins, At, KeywordAt;
    var i := FirstFrom(s, pat, 0);
    if i.Some? {
      var j := NextKeyword(s, i.value + 1);
      CutKeepsNoJoins(s, i.value, j, n);
      JoinPassKeeps(s[..i.value] + s[j..], pat, n);
    }
  }

  lemma {:induction false} JoinsGone(s: Bytes, n: nat)
    requires n <= 4 && NoJoins(s, n)
    ensures NoJoins(JoinsCut(s, n), 4)
    decreases 4 - n
  {
    hide WithoutJoins, Occurs;
    if n < 4 {
      JoinPatternsShaped(n);
      JoinPassKeeps(s, JoinPatterns()[n], n);
      JoinsGone(WithoutJoins(s, JoinPatterns()[n]), n + 1);
    }
  }

  lemma {:induction false} MatchPassKeeps(s: Bytes, pat: Bytes)
    requires MatchShaped(pat) && NoJoins(s, 4)
    ensures NoJoins(WithoutMatches(s, pat), 4)
    decreases |s|
  {
    hide NoJoins, At, LiteralEnd;
    var i := FirstFrom(s, pat, 0);
    if i.Some? && LiteralEnd(s, i.value).Some? {
      var e := LiteralEnd(s, i.value).value;
      LiteralBehind(s, i.value, pat);
      ReplaceKeepsNoJoins(s, i.value, e, 4);
      MatchPassKeeps(s[..i.value] + OneIsZero() + s[e + 1..], pat);
    }
  }

  /** After a pattern's pass its leftmost MATCH clause, if there is one, has no
      complete literal. */
  lemma {:induction false} MatchPassSettles(s: Bytes, pat: Bytes)
    requires MatchShaped(pat)
    ensures var i := FirstFrom(WithoutMatches(s, pat), pat, 0);
      i.Some? ==> LiteralEnd(WithoutMatches(s, pat), i.value).None?
    decreases |s|
  {
    hide At, LiteralEnd;
    var i := FirstFrom(s, pat, 0);
    if i.Some? && LiteralEnd(s, i.value).Some? {
      var e := LiteralEnd(s, i.value).value;
      LiteralBehind(s, i.value, pat);
      MatchPassSettles(s[..i.value] + OneIsZero() + s[e + 1..], pat);
    }
  }

  lemma {:induction false} MatchesKeepNoJoins(s: Bytes, n: nat)
    requires n <= 8 && NoJoins(s, 4)
    ensures NoJoins(MatchesCut(s, n), 4)
    decreases 8 - n
  {
    hide WithoutMatches, NoJoins;
    if n < 8 {
      MatchPatternsShaped(n);
      MatchPassKeeps(s, MatchPatterns()[n]);
      MatchesKeepNoJoins(WithoutMatches(s, MatchPatterns()[n]), n + 1);
    }
  }

  /** No join of a full-text table is left, in any case: none of the cuts and
      replacements makes a new one. */
  lemma SimplifiedHasNoJoins(sql: Bytes)
    ensures NoJoins(Simplified(sql), 4)
    ensures !Occurs(Simplified(sql), Text("join fts4_metadata_titles"))
    ensures !Occurs(Simplified(sql), Text("join fts4_tag_titles"))
  {
    hide JoinsCut, MatchesCut, Occurs;
    JoinsGone(sql, 0);
    MatchesKeepNoJoins(JoinsCut(sql, 0), 0);
    assert JoinPatterns()[1] == Text("join fts4_metadata_titles") && JoinPatterns()[3] == Text("join fts4_tag_titles");
  }

  /** A statement that names no full-text table joins none. */
  lemma NoTableNoJoin(sql: Bytes)
    requires !Occurs(sql, Text("fts4_"))
    ensures NoJoins(sql, 4)
  {
    forall m: nat, k: nat | m < 4
      ensures !At(sql, k, JoinPatterns()[m])
    {
      JoinNamesTable(sql, k, m);
    }
  }

  lemma JoinNamesTable(sql: Bytes, k: nat, m: nat)
    requires m < 4
    ensures At(sql, k, JoinPatterns()[m]) ==> At(sql, k + 5, Text("fts4_"))
  {
    var pat := JoinPatterns()[m];
    JoinNames(m);
    if At(sql, k, pat) {
      forall i | 0 <= i < 5
        ensures Lower(sql[k + 5 + i]) == Text("fts4_")[i]
      {
        assert Lower(sql[k + (5 + i)]) == pat[5 + i];
      }
    }
  }

  lemma JoinNames(m: nat)
    requires m < 4
    ensures |JoinPatterns()[m]| >= 10 && forall i :: 0 <= i < 5 ==> JoinPatterns()[m][5 + i] == Text("fts4_")[i]
  {
    var pat := JoinPatterns()[m];
    assert pat[5] == 0x66 && pat[6] == 0x74 && pat[7] == 0x73 && pat[8] == 0x34 && pat[9] == 0x5F;
  }

  // ----- a clause as it is written --------------------------------------

  /** A text in a literal, every quote doubled. */
  function Doubled(v: Bytes): Bytes {
    if v == [] then [] else (if v[0] == 0x27 then [0x27, 0x27] else [v[0]]) + Doubled(v[1..])
  }

  /** The pattern with some of its letters in upper case. */
  predicate Spells(clause: Bytes, pat: Bytes) {
    && |clause| == |pat|
    && forall k :: 0 <= k < |pat| ==>
      clause[k] == pat[k] || (0x61 <= pat[k] <= 0x7A && clause[k] as int == pat[k] as int - 0x20)
  }

  lemma SpelledAt(s: Bytes, i: nat, clause: Bytes, pat: Bytes)
    requires Spells(clause, pat) && LowerCase(pat) && i + |clause| <= |s| && s[i..i + |clause|] == clause
    ensures At(s, i, pat)
  {
    forall k | 0 <= k < |pat|
      ensures Lower(s[i + k]) == pat[k]
    {
      assert s[i + k] == s[i..i + |clause|][k] == clause[k];
    }
  }

  lemma FirstIs(s: Bytes, pat: Bytes, from: nat, i: nat)
    requires pat != [] && First(s, pat, from, i)
    ensures FirstFrom(s, pat, from) == Some(i)
  {
    assert At(s, i, pat);
    var r := FirstFrom(s, pat, from);
    assert r.Some?;
  }

  /** The scan passes over a doubled text. */
  lemma {:induction false} ClosesAfter(s: Bytes, i: nat, v: Bytes)
    requires i + |Doubled(v)| <= |s| && s[i..i + |Doubled(v)|] == Doubled(v)
    ensures CloseQuote(s, i) == CloseQuote(s, i + |Doubled(v)|)
    decreases v
  {
    if v != [] {
      var n, d, rest := if v[0] == 0x27 then 2 else 1, Doubled(v), Doubled(v[1..]);
      var w := s[i..i + |d|];
      assert forall k :: 0 <= k < |d| ==> s[i + k] == w[k];
      assert d[n..] == rest && s[i + n..i + n + |rest|] == w[n..];
      assert s[i] == w[0] == v[0] && (n == 2 ==> s[i + 1] == w[1] == 0x27);
      ClosesAfter(s, i + n, v[1..]);
    }
  }

  /** pre, a MATCH pattern, a quote, a doubled text. */
  function Opened(pre: Bytes, clause: Bytes, v: Bytes): Bytes {
    pre + clause + [0x27] + Doubled(v)
  }

  lemma OpenedParts(pre: Bytes, clause: Bytes, v: Bytes, t: Bytes)
    ensures var s, q := Opened(pre, clause, v) + t, |pre| + |clause|;
      && |s| == q + 1 + |Doubled(v)| + |t|
      && s[..|pre|] == pre && s[|pre|..q] == clause && s[q] == 0x27
      && s[q + 1..q + 1 + |Doubled(v)|] == Doubled(v) && s[q + 1 + |Doubled(v)|..] == t
  {
  }

  lemma ClauseUnquoted(s: Bytes, i: nat, clause: Bytes, pat: Bytes)
    requires Spells(clause, pat) && MatchShaped(pat) && i + |clause| <= |s| && s[i..i + |clause|] == clause
    ensures forall k :: i <= k < i + |clause| ==> s[k] != QUOTE
  {
    forall k | i <= k < i + |clause|
      ensures s[k] != QUOTE
    {
      assert s[k] == s[i..i + |clause|][k - i] == clause[k - i] && pat[k - i] in pat;
    }
  }

  /** Where the literal after the pattern closes: at the quote that follows its
      text, if one does. */
  lemma LiteralCloses(pre: Bytes, clause: Bytes, v: Bytes, t: Bytes, pat: Bytes)
    requires Spells(clause, pat) && MatchShaped(pat)
    requires t == [] || (t[0] == 0x27 && (|t| > 1 ==> t[1] != 0x27))
    ensures At(Opened(pre, clause, v) + t, |pre|, pat)
    ensures LiteralEnd(Opened(pre, clause, v) + t, |pre|)
         == if t == [] then None else Some(|pre| + |clause| + 1 + |Doubled(v)|)
  {
    var s, q := Opened(pre, clause, v) + t, |pre| + |clause|;
    OpenedParts(pre, clause, v, t);
    hide Opened, Doubled, CloseQuote, FirstQuote;
    SpelledAt(s, |pre|, clause, pat);
    ClauseUnquoted(s, |pre|, clause, pat);
    hide Spells, MatchShaped, At;
    OpensAt(s, |pre|, q);
    ClosesAfter(s, q + 1, v);
    ClosesAt(s, q + 1 + |Doubled(v)|, t);
  }

  lemma OpensAt(s: Bytes, i: nat, q: nat)
    requires i <= q < |s| && s[q] == QUOTE && forall k :: i <= k < q ==> s[k] != QUOTE
    ensures FirstQuote(s, i) == Some(q)
  {
    QuoteNotBefore(s, i, q);
  }

  lemma ClosesAt(s: Bytes, k: nat, t: Bytes)
    requires k <= |s| && s[k..] == t && (t == [] || (t[0] == 0x27 && (|t| > 1 ==> t[1] != 0x27)))
    ensures CloseQuote(s, k) == if t == [] then None else Some(k)
  {
    assert |t| > 1 ==> s[k..][1] == s[k + 1];
  }

  /** A MATCH clause is replaced as a whole, quotes in its text included. */
  lemma ClauseReplaced(pre: Bytes, clause: Bytes, v: Bytes, rest: Bytes, pat: Bytes)
    requires MatchShaped(pat) && Spells(clause, pat)
    requires rest == [] || rest[0] != 0x27
    requires forall k :: 0 <= k < |pre| ==> !At(Opened(pre, clause, v) + [0x27] + rest, k, pat)
    ensures WithoutMatches(pre + clause + [0x27] + Doubled(v) + [0x27] + rest, pat)
         == WithoutMatches(pre + [0x31, 0x3D, 0x30] + rest, pat)
  {
    var s, t := Opened(pre, clause, v) + [0x27] + rest, [0x27] + rest;
    assert s == Opened(pre, clause, v) + t;
    OpenedParts(pre, clause, v, t);
    LiteralCloses(pre, clause, v, t, pat);
    var e := |pre| + |clause| + 1 + |Doubled(v)|;
    assert s[e..] == t && s[e + 1..] == rest;
    assert OneIsZero() == [0x31, 0x3D, 0x30];
    hide At, LiteralEnd, Doubled, OneIsZero, MatchShaped;
    FirstIs(s, pat, 0, |pre|);
    MatchStep(s, pat, |pre|);
  }

  /** One whose literal is not closed is left. */
  lemma ClauseLeft(pre: Bytes, clause: Bytes, v: Bytes, pat: Bytes)
    requires MatchShaped(pat) && Spells(clause, pat)
    requires forall k :: 0 <= k < |pre| ==> !At(Opened(pre, clause, v), k, pat)
    ensures WithoutMatches(pre + clause + [0x27] + Doubled(v), pat) == pre + clause + [0x27] + Doubled(v)
  {
    var s := Opened(pre, clause, v);
    assert s + [] == s;
    LiteralCloses(pre, clause, v, [], pat);
    hide At, LiteralEnd, Doubled, OneIsZero, MatchShaped;
    FirstIs(s, pat, 0, |pre|);
    MatchStep(s, pat, |pre|);
  }

  /** One of the five words that end a join clause, in any case, stands at k. */
  predicate EndsAt(s: Bytes, k: nat) {
    || At(s, k, Text(" where ")) || At(s, k, Text(" join ")) || At(s, k, Text(" left "))
    || At(s, k, Text(" group ")) || At(s, k, Text(" order "))
  }

  lemma EndsAtKeyword(s: Bytes, k: nat)
    ensures EndsAt(s, k) <==> KeywordAt(s, k)
  {
    hide At;
    var ks := EndKeywords();
    assert ks[0] == Text(" where ") && ks[1] == Text(" join ") && ks[2] == Text(" left ");
    assert ks[3] == Text(" group ") && ks[4] == Text(" order ");
  }

  lemma NextIs(s: Bytes, k: nat, j: nat)
    requires k <= j <= |s| && (j == |s| || EndsAt(s, j)) && forall m :: k <= m < j ==> !EndsAt(s, m)
    ensures NextKeyword(s, k) == j
  {
    hide EndsAt, KeywordAt;
    forall m: nat
      ensures EndsAt(s, m) <==> KeywordAt(s, m)
    {
      EndsAtKeyword(s, m);
    }
    var n := NextKeyword(s, k);
    assert n == |s| || EndsAt(s, n);
  }

  /** A join clause is cut up to the first word that ends it, or the end. */
  lemma JoinRemoved(pre: Bytes, clause: Bytes, body: Bytes, rest: Bytes, pat: Bytes)
    requires pat != [] && LowerCase(pat) && Spells(clause, pat)
    requires var s := pre + clause + body + rest;
      && (forall k :: 0 <= k < |pre| ==> !At(s, k, pat))
      && (forall k :: |pre| < k < |s| - |rest| ==> !EndsAt(s, k))
      && (rest == [] || EndsAt(s, |s| - |rest|))
    ensures WithoutJoins(pre + clause + body + rest, pat) == WithoutJoins(pre + rest, pat)
  {
    var s := pre + clause + body + rest;
    var i, j := |pre|, |s| - |rest|;
    assert s[..i] == pre && s[i..i + |clause|] == clause && s[j..] == rest;
    SpelledAt(s, i, clause, pat);
    hide At, EndsAt, Spells, LowerCase;
    FirstIs(s, pat, 0, i);
    NextIs(s, i + 1, j);
  }

  // ----- a statement with one clause ------------------------------------

  /** The columns a MATCH clause may name. */
  ghost predicate IsMatch(pat: Bytes) {
    || pat == Text("fts4_metadata_titles_icu.title match ") || pat == Text("fts4_metadata_titles_icu.title_sort match ")
    || pat == Text("fts4_metadata_titles.title match ") || pat == Text("fts4_metadata_titles.title_sort match ")
    || pat == Text("fts4_tag_titles_icu.title match ") || pat == Text("fts4_tag_titles_icu.tag match ")
    || pat == Text("fts4_tag_titles.title match ") || pat == Text("fts4_tag_titles.tag match ")
  }

  lemma MatchIndex(pat: Bytes) returns (n: nat)
    requires IsMatch(pat)
    ensures n < 8 && MatchPatterns()[n] == pat
  {
    hide Text;
    var ps := MatchPatterns();
    n := if pat == ps[0] then 0 else if pat == ps[1] then 1 else if pat == ps[2] then 2 else if pat == ps[3] then 3
         else if pat == ps[4] then 4 else if pat == ps[5] then 5 else if pat == ps[6] then 6 else 7;
  }

  lemma IndexMatch(n: nat)
    requires n < 8
    ensures IsMatch(MatchPatterns()[n])
  {
    hide Text;
  }

  lemma {:induction false} NoJoinsCut(s: Bytes, n: nat)
    requires n <= 4 && NoJoins(s, 4)
    ensures JoinsCut(s, n) == s
    decreases 4 - n
  {
    if n < 4 {
      JoinPatternsShaped(n);
      NothingToCut(s, JoinPatterns()[n]);
      hide WithoutJoins, Occurs, JoinPatterns;
      NoJoinsCut(s, n + 1);
    }
  }

  lemma NothingToCut(s: Bytes, pat: Bytes)
    requires pat != [] && !Occurs(s, pat)
    ensures WithoutJoins(s, pat) == s && FirstFrom(s, pat, 0).None?
  {
    hide At;
  }

  /** Patterns that do not occur leave the text as it is. */
  lemma {:induction false} Untouched(s: Bytes, m: nat, n: nat)
    requires m <= n <= 8 && forall k :: m <= k < n ==> !Occurs(s, MatchPatterns()[k])
    ensures MatchesCut(s, m) == MatchesCut(s, n)
    decreases n - m
  {
    hide WithoutMatches, MatchPatterns, Occurs, MatchShaped;
    if m < n {
      MatchesStep(s, m);
      NothingToMatch(s, MatchPatterns()[m]);
      Untouched(s, m + 1, n);
    }
  }

  lemma NothingToMatch(s: Bytes, pat: Bytes)
    requires MatchShaped(pat) && !Occurs(s, pat)
    ensures WithoutMatches(s, pat) == s
  {
    NothingToCut(s, pat);
    NoMatch(s, pat);
  }

  /** A statement without a full-text join, with one MATCH clause and no other
      after it is gone, has that clause replaced and nothing else changed. */
  lemma SimplifiesClause(pre: Bytes, clause: Bytes, v: Bytes, rest: Bytes, pat: Bytes)
    requires IsMatch(pat) && Spells(clause, pat) && (rest == [] || rest[0] != 0x27)
    requires var s := pre + clause + [0x27] + Doubled(v) + [0x27] + rest;
      && NoJoins(s, 4) && (forall k :: 0 <= k < |pre| ==> !At(s, k, pat))
      && (forall p :: IsMatch(p) && p != pat ==> !Occurs(s, p))
    requires forall p :: IsMatch(p) ==> !Occurs(pre + [0x31, 0x3D, 0x30] + rest, p)
    ensures Simplified(pre + clause + [0x27] + Doubled(v) + [0x27] + rest) == pre + [0x31, 0x3D, 0x30] + rest
  {
    var s, t := pre + clause + [0x27] + Doubled(v) + [0x27] + rest, pre + [0x31, 0x3D, 0x30] + rest;
    var n := MatchIndex(pat);
    MatchPatternsShaped(n);
    NoJoinsCut(s, 0);
    assert s == Opened(pre, clause, v) + [0x27] + rest;
    ClauseReplaced(pre, clause, v, rest, pat);
    hide Doubled, Spells, Text, MatchShaped, MatchPatterns, Occurs, IsMatch, At, NoJoins, JoinsCut, WithoutMatches;
    OthersAbsent(s, t, pat, n);
    Untouched(s, 0, n);
    MatchesStep(s, n);
    NothingToMatch(t, pat);
    Untouched(t, n + 1, 8);
    CutsEnd(t);
  }

  lemma OthersAbsent(s: Bytes, t: Bytes, pat: Bytes, n: nat)
    requires n < 8 && MatchPatterns()[n] == pat
    requires (forall p :: IsMatch(p) && p != pat ==> !Occurs(s, p)) && (forall p :: IsMatch(p) ==> !Occurs(t, p))
    ensures forall k :: 0 <= k < n ==> !Occurs(s, MatchPatterns()[k])
    ensures forall k :: n < k < 8 ==> !Occurs(t, MatchPatterns()[k])
    ensures !Occurs(t, pat)
  {
    hide Occurs, IsMatch, MatchPatterns;
    forall k: nat | k < 8
      ensures IsMatch(MatchPatterns()[k]) && (k != n ==> MatchPatterns()[k] != pat)
    {
      IndexMatch(k);
      if k != n {
        PatternsDiffer(k, n);
      }
    }
  }

  lemma PatternsDiffer(k: nat, n: nat)
    requires k < 8 && n < 8 && k != n
    ensures MatchPatterns()[k] != MatchPatterns()[n]
  {
    PatternKinds(k);
    PatternKinds(n);
  }

  /** Their lengths tell the eight apart. */
  lemma PatternKinds(k: nat)
    requires k < 8
    ensures |MatchPatterns()[k]| == [37, 42, 33, 38, 32, 30, 28, 26][k]
  {
  }
}
