/** `replace_ascii_icase_all`: the byte walk that replaces a pattern, whatever
    the case of its ASCII letters, and copies every other character whole. */
module ReplaceIcase {
  import opened Common
  import opened Utf8

  function Lower(b: byte): byte {
    if 0x41 <= b <= 0x5A then b + 0x20 else b
  }

  /** Bytes are compared alike when they are one, or one ASCII letter in two
      cases. */
  lemma LowerSame(a: byte, b: byte)
    ensures Lower(a) == Lower(b) <==>
      || a == b
      || (0x41 <= a <= 0x5A && b as int == a as int + 0x20)
      || (0x41 <= b <= 0x5A && a as int == b as int + 0x20)
  {
  }

  /** The pattern, in any case, is where the text begins. */
  predicate Matches(rest: Bytes, pat: Bytes) {
    |pat| <= |rest| && forall i :: 0 <= i < |pat| ==> Lower(rest[i]) == Lower(pat[i])
  }

  // ----- the byte walk --------------------------------------------------

  function Walk(rest: Bytes, pat: Bytes, replacement: Bytes): Bytes
    requires pat != []
  {
    if rest == [] then []
    else if Matches(rest, pat) then replacement + Walk(rest[|pat|..], pat, replacement)
    else Pushed(rest) + Walk(rest[1..], pat, replacement)
  }

  /** One turn of the loop: what is written and how far it moves. */
  lemma WalkStep(s: Bytes, i: nat, pat: Bytes, replacement: Bytes)
    requires i < |s| && pat != []
    ensures Matches(s[i..], pat) ==>
              i + |pat| <= |s| && Walk(s[i..], pat, replacement) == replacement + Walk(s[i + |pat|..], pat, replacement)
    ensures !Matches(s[i..], pat) ==>
              Walk(s[i..], pat, replacement) == Pushed(s[i..]) + Walk(s[i + 1..], pat, replacement)
  {
    if Matches(s[i..], pat) {
      assert s[i..][|pat|..] == s[i + |pat|..];
    } else {
      assert s[i..][1..] == s[i + 1..];
    }
  }

  method ReplaceAll(input: Bytes, pat: Bytes, replacement: Bytes) returns (out: Bytes)
    requires Valid(input) && Valid(pat) && Valid(replacement)
    ensures out == if pat == [] then input else Walk(input, pat, replacement)
  {
    hide Walk, Valid, Matches, Pushed;
    if pat == [] {
      return input;
    }
    if |input| < |pat| {
      ShortWalk(input, pat, replacement);
      return input;
    }
    out := [];
    var i := 0;
    assert input[0..] == input;
    while i < |input|
      invariant 0 <= i <= |input|
      invariant out + Walk(input[i..], pat, replacement) == Walk(input, pat, replacement)
    {
      WalkStep(input, i, pat, replacement);
      if Matches(input[i..], pat) {
        assert out + (replacement + Walk(input[i + |pat|..], pat, replacement))
            == out + replacement + Walk(input[i + |pat|..], pat, replacement);
        out := out + replacement;
        i := i + |pat|;
      } else {
        assert out + (Pushed(input[i..]) + Walk(input[i + 1..], pat, replacement))
            == out + Pushed(input[i..]) + Walk(input[i + 1..], pat, replacement);
        out := out + Pushed(input[i..]);
        i := i + 1;
      }
    }
    WalkEnd(pat, replacement);
    assert input[|input|..] == [];
  }

  lemma WalkEnd(pat: Bytes, replacement: Bytes)
    requires pat != []
    ensures Walk([], pat, replacement) == []
  {
  }

  // ----- on characters --------------------------------------------------

  /** The same character, but for the case of an ASCII letter. */
  predicate SameChar(a: Bytes, b: Bytes) {
    |a| == |b| && forall i :: 0 <= i < |a| ==> Lower(a[i]) == Lower(b[i])
  }

  /** The pattern is where a list of characters begins. */
  predicate MatchesChars(cs: seq<Bytes>, pat: seq<Bytes>) {
    |pat| <= |cs| && forall i :: 0 <= i < |pat| ==> SameChar(cs[i], pat[i])
  }

  /** Leftmost, non-overlapping replacement on characters. */
  function ReplaceChars(cs: seq<Bytes>, pat: seq<Bytes>, replacement: seq<Bytes>): seq<Bytes>
    requires pat != []
  {
    if cs == [] then []
    else if MatchesChars(cs, pat) then replacement + ReplaceChars(cs[|pat|..], pat, replacement)
    else [cs[0]] + ReplaceChars(cs[1..], pat, replacement)
  }

  /** Characters whose first bytes match are as long as each other. */
  lemma FirstBytes(c: Bytes, p: Bytes)
    requires CharOk(c) && CharOk(p) && Lower(c[0]) == Lower(p[0])
    ensures |c| == |p|
  {
  }

  lemma MatchAppend(a: Bytes, x: Bytes, b: Bytes, y: Bytes)
    requires |a| == |b|
    ensures Matches(a + x, b + y) <==> SameChar(a, b) && Matches(x, y)
  {
    var s, t := a + x, b + y;
    if Matches(s, t) {
      forall i | 0 <= i < |a|
        ensures Lower(a[i]) == Lower(b[i])
      {
        assert Lower(s[i]) == Lower(t[i]);
      }
      forall i | 0 <= i < |y|
        ensures Lower(x[i]) == Lower(y[i])
      {
        assert Lower(s[|a| + i]) == Lower(t[|a| + i]);
      }
    }
    if SameChar(a, b) && Matches(x, y) {
      forall i | 0 <= i < |t|
        ensures Lower(s[i]) == Lower(t[i])
      {
        assert i >= |a| ==> Lower(x[i - |a|]) == Lower(y[i - |a|]);
      }
    }
  }

  lemma MatchCharsCons(c: Bytes, cs: seq<Bytes>, p: Bytes, ps: seq<Bytes>)
    ensures MatchesChars([c] + cs, [p] + ps) <==> SameChar(c, p) && MatchesChars(cs, ps)
  {
    hide SameChar;
    var x, y := [c] + cs, [p] + ps;
    if MatchesChars(x, y) {
      assert SameChar(x[0], y[0]);
      forall i | 0 <= i < |ps|
        ensures SameChar(cs[i], ps[i])
      {
        assert SameChar(x[i + 1], y[i + 1]);
      }
    }
    if SameChar(c, p) && MatchesChars(cs, ps) {
      forall i | 0 <= i < |y|
        ensures SameChar(x[i], y[i])
      {
        assert i > 0 ==> SameChar(cs[i - 1], ps[i - 1]);
      }
    }
  }

  lemma FirstDiffers(c: Bytes, x: Bytes, p: Bytes, y: Bytes)
    requires CharOk(c) && CharOk(p) && |c| != |p|
    ensures !Matches(c + x, p + y) && !SameChar(c, p)
  {
    if Matches(c + x, p + y) {
      assert Lower((c + x)[0]) == Lower((p + y)[0]);
      FirstBytes(c, p);
    }
  }

  ghost predicate MatchAgrees(cs: seq<Bytes>, pat: seq<Bytes>) {
    && (Matches(Flat(cs), Flat(pat)) <==> MatchesChars(cs, pat))
    && (MatchesChars(cs, pat) ==> |Flat(pat)| <= |Flat(cs)| && Flat(cs)[|Flat(pat)|..] == Flat(cs[|pat|..]))
  }

  lemma MatchAgreesCons(c: Bytes, cs: seq<Bytes>, p: Bytes, ps: seq<Bytes>)
    requires CharOk(c) && CharOk(p) && MatchAgrees(cs, ps)
    ensures MatchAgrees([c] + cs, [p] + ps)
  {
    hide Matches, MatchesChars, SameChar, CharOk, Flat;
    FlatCons(c, cs);
    FlatCons(p, ps);
    MatchCharsCons(c, cs, p, ps);
    if |c| == |p| {
      MatchAppend(c, Flat(cs), p, Flat(ps));
      if MatchesChars(cs, ps) {
        MatchLength(cs, ps);
        assert (c + Flat(cs))[|p + Flat(ps)|..] == Flat(cs)[|Flat(ps)|..];
        assert ([c] + cs)[|[p] + ps|..] == cs[|ps|..];
      }
    } else {
      FirstDiffers(c, Flat(cs), p, Flat(ps));
    }
  }

  lemma MatchLength(cs: seq<Bytes>, pat: seq<Bytes>)
    requires MatchesChars(cs, pat)
    ensures |pat| <= |cs|
  {
  }

  /** Bytes match exactly when characters do, and then as many bytes are passed
      over as the pattern's characters have. */
  lemma {:induction false} MatchIsOnChars(cs: seq<Bytes>, pat: seq<Bytes>)
    requires AllOk(cs) && AllOk(pat)
    ensures MatchAgrees(cs, pat)
    decreases pat
  {
    if pat == [] {
      assert cs[0..] == cs;
      assert Flat(cs)[0..] == Flat(cs);
    } else if cs == [] {
      FlatNotEmpty(pat);
    } else {
      hide MatchAgrees, CharOk;
      assert cs == [cs[0]] + cs[1..] && pat == [pat[0]] + pat[1..];
      MatchIsOnChars(cs[1..], pat[1..]);
      MatchAgreesCons(cs[0], cs[1..], pat[0], pat[1..]);
    }
  }

  lemma FlatNotEmpty(cs: seq<Bytes>)
    requires AllOk(cs) && cs != []
    ensures Flat(cs) != [] && !Continuation(Flat(cs)[0])
  {
    assert CharOk(cs[0]);
  }

  /** The walk steps over continuation bytes without a trace. */
  lemma {:induction false} SkipContinuations(skip: Bytes, rest: Bytes, pat: Bytes, replacement: Bytes)
    requires pat != [] && !Continuation(pat[0])
    requires forall i :: 0 <= i < |skip| ==> Continuation(skip[i])
    ensures Walk(skip + rest, pat, replacement) == Walk(rest, pat, replacement)
    decreases skip
  {
    if skip == [] {
      assert skip + rest == rest;
    } else {
      var s := skip + rest;
      assert s[0] == skip[0] && s[1..] == skip[1..] + rest;
      assert Lower(s[0]) != Lower(pat[0]);
      SkipContinuations(skip[1..], rest, pat, replacement);
    }
  }

  /** A character where no match begins is copied whole. */
  lemma WalkCopies(c: Bytes, rest: Bytes, pat: Bytes, replacement: Bytes)
    requires CharOk(c) && pat != [] && !Continuation(pat[0]) && !Matches(c + rest, pat)
    ensures Walk(c + rest, pat, replacement) == c + Walk(rest, pat, replacement)
  {
    PushedChar(c, rest);
    assert (c + rest)[1..] == c[1..] + rest;
    SkipContinuations(c[1..], rest, pat, replacement);
    hide Pushed, Matches;
  }

  /** The byte walk is replacement on characters: each character outside a
      match arrives whole and once, and the result is well-formed. */
  lemma {:induction false} WalkIsOnChars(cs: seq<Bytes>, pat: seq<Bytes>, replacement: seq<Bytes>)
    requires AllOk(cs) && AllOk(pat) && AllOk(replacement) && pat != []
    ensures Flat(pat) != []
    ensures Walk(Flat(cs), Flat(pat), Flat(replacement)) == Flat(ReplaceChars(cs, pat, replacement))
    ensures AllOk(ReplaceChars(cs, pat, replacement))
    decreases cs
  {
    FlatNotEmpty(pat);
    if cs != [] {
      var s, tail := Flat(cs), cs[1..];
      MatchIsOnChars(cs, pat);
      FlatNotEmpty(cs);
      if MatchesChars(cs, pat) {
        WalkIsOnChars(cs[|pat|..], pat, replacement);
        FlatSplit(replacement, ReplaceChars(cs[|pat|..], pat, replacement));
      } else {
        WalkIsOnChars(tail, pat, replacement);
        hide Walk, Matches, CharOk;
        WalkCopies(cs[0], Flat(tail), Flat(pat), Flat(replacement));
        FlatCons(cs[0], ReplaceChars(tail, pat, replacement));
      }
    }
  }

  /** A text shorter than the pattern is left as it is. */
  lemma {:induction false} TooShort(cs: seq<Bytes>, pat: seq<Bytes>, replacement: seq<Bytes>)
    requires AllOk(cs) && AllOk(pat) && pat != [] && |Flat(cs)| < |Flat(pat)|
    ensures ReplaceChars(cs, pat, replacement) == cs
    decreases cs
  {
    if cs != [] {
      MatchIsOnChars(cs, pat);
      TooShort(cs[1..], pat, replacement);
    }
  }

  lemma ShortWalk(input: Bytes, pat: Bytes, replacement: Bytes)
    requires Valid(input) && Valid(pat) && Valid(replacement) && pat != [] && |input| < |pat|
    ensures Walk(input, pat, replacement) == input
  {
    FlatChars(input);
    FlatChars(pat);
    FlatChars(replacement);
    WalkIsOnChars(Chars(input), Chars(pat), Chars(replacement));
    TooShort(Chars(input), Chars(pat), Chars(replacement));
  }

  /** For every well-formed text, replacement and non-empty pattern, the result
      is well-formed and its characters are the replaced characters. */
  lemma ReplacedChars(input: Bytes, pat: Bytes, replacement: Bytes)
    requires Valid(input) && Valid(pat) && Valid(replacement) && pat != []
    ensures Valid(Walk(input, pat, replacement)) && Chars(pat) != []
    ensures Chars(Walk(input, pat, replacement)) == ReplaceChars(Chars(input), Chars(pat), Chars(replacement))
  {
    FlatChars(input);
    FlatChars(pat);
    FlatChars(replacement);
    WalkIsOnChars(Chars(input), Chars(pat), Chars(replacement));
    FlatValid(ReplaceChars(Chars(input), Chars(pat), Chars(replacement)));
  }
}
