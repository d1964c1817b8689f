/** A statement as the pieces it is written from: characters on their own,
    quoted texts, bracketed names and comments.  The placeholder counter counts
    the question marks that are characters on their own. */
module SqlPieces {
  import opened Common
  import Q = QuestionMarks

  datatype Piece =
    | Plain(c: char)
    | Quoted(quote: char, text: string)
    | Bracketed(text: string)
    | Line(text: string)
    | Block(text: string)

  /** A text with every quote in it doubled. */
  function Doubled(text: string, quote: char): string {
    if text == "" then ""
    else (if text[0] == quote then [quote, quote] else [text[0]]) + Doubled(text[1..], quote)
  }

  ghost predicate Closes(text: string) {
    exists i :: 0 <= i && i + 1 < |text| && text[i] == '*' && text[i + 1] == '/'
  }

  ghost predicate WellFormed(p: Piece) {
    match p
    case Plain(c) => c != '\'' && c != '"' && c != '`' && c != '['
    case Quoted(quote, _) => quote == '\'' || quote == '"' || quote == '`'
    case Bracketed(text) => ']' !in text
    case Line(text) => '\n' !in text
    case Block(text) => !Closes(text)
  }

  /** A piece without what ends it. */
  function Unended(p: Piece): string {
    match p
    case Plain(c) => [c]
    case Quoted(quote, text) => [quote] + Doubled(text, quote)
    case Bracketed(text) => "[" + text
    case Line(text) => "--" + text
    case Block(text) => "/*" + text
  }

  function Ending(p: Piece): string {
    match p
    case Plain(_) => ""
    case Quoted(quote, _) => [quote]
    case Bracketed(_) => "]"
    case Line(_) => "\n"
    case Block(_) => "*/"
  }

  /** Pieces, the last perhaps unended. */
  function Written(ps: seq<Piece>, last: Option<Piece>): string {
    if ps == [] then if last.Some? then Unended(last.value) else ""
    else Unended(ps[0]) + Ending(ps[0]) + Written(ps[1..], last)
  }

  /** A character and the text after it do not make the start of a comment. */
  predicate Apart(p: Piece, rest: string) {
    && (p == Plain('-') && rest != "" ==> rest[0] != '-')
    && (p == Plain('/') && rest != "" ==> rest[0] != '*')
  }

  ghost predicate AllWellFormed(ps: seq<Piece>, last: Option<Piece>) {
    if ps == [] then last.Some? ==> WellFormed(last.value) && !last.value.Plain?
    else WellFormed(ps[0]) && Apart(ps[0], Written(ps[1..], last)) && AllWellFormed(ps[1..], last)
  }

  function PlainMarks(ps: seq<Piece>): nat {
    if ps == [] then 0 else (if ps[0] == Plain('?') then 1 else 0) + PlainMarks(ps[1..])
  }

  // ----- each piece is passed over --------------------------------------

  lemma MarksCons(st: Q.Lexer, c: char, t: string)
    ensures Q.Marks(st, [c] + t) == (if Q.Bare(st) && c == '?' then 1 else 0) + Q.Marks(Q.Step(st, c), t)
  {
    assert ([c] + t)[1..] == t;
  }

  lemma Split(c: char, text: string, t: string)
    requires text != "" && text[0] == c
    ensures text + t == [c] + (text[1..] + t)
  {
  }

  lemma {:induction false} InQuotes(text: string, quote: char, t: string)
    requires quote == '\'' || quote == '"' || quote == '`'
    ensures Q.Marks(Q.Quote(quote), Doubled(text, quote) + t) == Q.Marks(Q.Quote(quote), t)
    decreases text
  {
    hide Q.Marks;
    if text == "" {
      assert "" + t == t;
    } else {
      var rest := Doubled(text[1..], quote) + t;
      InQuotes(text[1..], quote, t);
      if text[0] == quote {
        assert Doubled(text, quote) + t == [quote] + ([quote] + rest);
        MarksCons(Q.Quote(quote), quote, [quote] + rest);
        MarksCons(Q.Normal, quote, rest);
      } else {
        assert Doubled(text, quote) + t == [text[0]] + rest;
        MarksCons(Q.Quote(quote), text[0], rest);
      }
    }
  }

  lemma {:induction false} InBrackets(text: string, t: string)
    requires ']' !in text
    ensures Q.Marks(Q.Bracket, text + t) == Q.Marks(Q.Bracket, t)
    decreases text
  {
    hide Q.Marks;
    if text == "" {
      assert text + t == t;
    } else {
      Split(text[0], text, t);
      MarksCons(Q.Bracket, text[0], text[1..] + t);
      InBrackets(text[1..], t);
    }
  }

  lemma {:induction false} InLine(text: string, t: string)
    requires '\n' !in text
    ensures Q.Marks(Q.LineComment, text + t) == Q.Marks(Q.LineComment, t)
    decreases text
  {
    hide Q.Marks;
    if text == "" {
      assert text + t == t;
    } else {
      Split(text[0], text, t);
      MarksCons(Q.LineComment, text[0], text[1..] + t);
      InLine(text[1..], t);
    }
  }

  lemma ClosesTail(text: string)
    requires text != "" && !Closes(text)
    ensures !Closes(text[1..]) && (text[0] == '*' && |text| > 1 ==> text[1] != '/')
  {
    assert forall i :: 0 <= i < |text[1..]| ==> text[1..][i] == text[i + 1];
  }

  /** In a block comment, after a star or not, up to what ends it. */
  lemma {:induction false} InBlock(st: Q.Lexer, text: string, t: string)
    requires st == Q.BlockComment || (st == Q.BlockStar && (text != "" ==> text[0] != '/'))
    requires !Closes(text) && (t == "" || (|t| >= 2 && t[0] == '*' && t[1] == '/'))
    ensures Q.Marks(st, text + t) == if t == "" then 0 else Q.Marks(Q.Normal, t[2..])
    decreases text
  {
    hide Q.Marks, Closes;
    if text == "" {
      assert text + t == t;
      if t == "" {
        NoMarks(st);
      } else {
        assert t == ['*'] + (['/'] + t[2..]);
        MarksCons(st, '*', ['/'] + t[2..]);
        MarksCons(Q.BlockStar, '/', t[2..]);
      }
    } else {
      ClosesTail(text);
      Split(text[0], text, t);
      MarksCons(st, text[0], text[1..] + t);
      InBlock(if text[0] == '*' then Q.BlockStar else Q.BlockComment, text[1..], t);
    }
  }

  lemma NoMarks(st: Q.Lexer)
    ensures Q.Marks(st, "") == 0
  {
  }

  /** A dash or a slash that opens nothing. */
  lemma AfterPlain(c: char, t: string)
    requires c != '\'' && c != '"' && c != '`' && c != '[' && Apart(Plain(c), t)
    ensures Q.Marks(Q.Normal, [c] + t) == (if c == '?' then 1 else 0) + Q.Marks(Q.Normal, t)
  {
    MarksCons(Q.Normal, c, t);
    if t != "" {
      assert t == [t[0]] + t[1..];
      hide Q.Marks;
      MarksCons(Q.Normal, t[0], t[1..]);
      MarksCons(Q.Dash, t[0], t[1..]);
      MarksCons(Q.Slash, t[0], t[1..]);
    }
  }

  lemma AfterEnded(p: Piece, t: string)
    requires WellFormed(p) && Apart(p, t)
    ensures Q.Marks(Q.Normal, Unended(p) + Ending(p) + t) == (if p == Plain('?') then 1 else 0) + Q.Marks(Q.Normal, t)
  {
    hide Q.Marks, Closes;
    match p
    case Plain(c) =>
      assert [c] + "" + t == [c] + t;
      AfterPlain(c, t);
    case Quoted(quote, text) =>
      var d := Doubled(text, quote);
      assert [quote] + d + [quote] + t == [quote] + (d + ([quote] + t));
      MarksCons(Q.Normal, quote, d + ([quote] + t));
      InQuotes(text, quote, [quote] + t);
      MarksCons(Q.Quote(quote), quote, t);
    case Bracketed(text) =>
      assert "[" + text + "]" + t == ['['] + (text + ([']'] + t));
      MarksCons(Q.Normal, '[', text + ([']'] + t));
      InBrackets(text, [']'] + t);
      MarksCons(Q.Bracket, ']', t);
    case Line(text) =>
      assert "--" + text + "\n" + t == ['-'] + (['-'] + (text + (['\n'] + t)));
      MarksCons(Q.Normal, '-', ['-'] + (text + (['\n'] + t)));
      MarksCons(Q.Dash, '-', text + (['\n'] + t));
      InLine(text, ['\n'] + t);
      MarksCons(Q.LineComment, '\n', t);
    case Block(text) =>
      assert "/*" + text + "*/" + t == ['/'] + (['*'] + (text + ("*/" + t)));
      MarksCons(Q.Normal, '/', ['*'] + (text + ("*/" + t)));
      MarksCons(Q.Slash, '*', text + ("*/" + t));
      InBlock(Q.BlockComment, text, "*/" + t);
      assert ("*/" + t)[2..] == t;
  }

  lemma AfterUnended(p: Piece)
    requires WellFormed(p) && !p.Plain?
    ensures Q.Marks(Q.Normal, Unended(p)) == 0
  {
    hide Q.Marks, Closes;
    match p
    case Quoted(quote, text) =>
      var d := Doubled(text, quote);
      MarksCons(Q.Normal, quote, d);
      InQuotes(text, quote, "");
      assert d + "" == d;
      NoMarks(Q.Quote(quote));
    case Bracketed(text) =>
      MarksCons(Q.Normal, '[', text);
      InBrackets(text, "");
      assert text + "" == text;
      NoMarks(Q.Bracket);
    case Line(text) =>
      assert "--" + text == ['-'] + (['-'] + text);
      MarksCons(Q.Normal, '-', ['-'] + text);
      MarksCons(Q.Dash, '-', text);
      InLine(text, "");
      assert text + "" == text;
      NoMarks(Q.LineComment);
    case Block(text) =>
      assert "/*" + text == ['/'] + (['*'] + text);
      MarksCons(Q.Normal, '/', ['*'] + text);
      MarksCons(Q.Slash, '*', text);
      InBlock(Q.BlockComment, text, "");
      assert text + "" == text;
  }

  /** The counter gives the number of pieces that are a question mark. */
  lemma {:induction false} PiecesCounted(ps: seq<Piece>, last: Option<Piece>)
    requires AllWellFormed(ps, last)
    ensures Q.Marks(Q.Normal, Written(ps, last)) == PlainMarks(ps)
    decreases ps
  {
    hide WellFormed, Unended, Ending;
    if ps != [] {
      PiecesCounted(ps[1..], last);
      AfterEnded(ps[0], Written(ps[1..], last));
    } else if last.Some? {
      AfterUnended(last.value);
    }
  }

  // ----- every statement is so written ----------------------------------

  /** The text of a literal: up to its closing quote, or all there is. */
  lemma {:induction false} QuotedPart(s: string, quote: char) returns (text: string, closed: bool, rest: string)
    ensures s == Doubled(text, quote) + (if closed then [quote] + rest else "")
    decreases |s|
  {
    text, closed, rest := "", false, "";
    if s == "" {
    } else if s[0] != quote {
      text, closed, rest := QuotedPart(s[1..], quote);
      assert ([s[0]] + text)[1..] == text;
      text := [s[0]] + text;
    } else if |s| > 1 && s[1] == quote {
      text, closed, rest := QuotedPart(s[2..], quote);
      assert ([quote] + text)[1..] == text;
      text := [quote] + text;
    } else {
      text, closed, rest := "", true, s[1..];
    }
  }

  /** The text before the first of a character, or all there is. */
  lemma {:induction false} PartBefore(s: string, c: char) returns (text: string, closed: bool, rest: string)
    ensures c !in text && s == text + (if closed then [c] + rest else "")
    decreases |s|
  {
    text, closed, rest := "", false, "";
    if s != "" {
      if s[0] == c {
        closed, rest := true, s[1..];
      } else {
        text, closed, rest := PartBefore(s[1..], c);
        text := [s[0]] + text;
      }
    }
  }

  lemma {:induction false} BlockPart(s: string) returns (text: string, closed: bool, rest: string)
    ensures !Closes(text) && s == text + (if closed then "*/" + rest else "")
    decreases |s|
  {
    text, closed, rest := "", false, "";
    if s != "" {
      if |s| > 1 && s[0] == '*' && s[1] == '/' {
        closed, rest := true, s[2..];
        assert s == "*/" + rest;
      } else {
        ghost var t;
        t, closed, rest := BlockPart(s[1..]);
        text := [s[0]] + t;
        BlockGrows(s, t, closed, rest);
      }
    }
  }

  lemma BlockGrows(s: string, t: string, closed: bool, rest: string)
    requires s != "" && !Closes(t) && s[1..] == t + (if closed then "*/" + rest else "")
    requires !(|s| > 1 && s[0] == '*' && s[1] == '/')
    ensures !Closes([s[0]] + t) && s == [s[0]] + t + (if closed then "*/" + rest else "")
  {
    var text := [s[0]] + t;
    forall i | 0 <= i && i + 1 < |text|
      ensures !(text[i] == '*' && text[i + 1] == '/')
    {
      if i == 0 {
        assert text[1] == t[0] == s[1..][0];
      } else {
        assert text[i] == t[i - 1] && text[i + 1] == t[i];
      }
    }
  }

  /** The first piece of a text, whether it is ended, and what follows. */
  lemma FirstPiece(s: string) returns (p: Piece, closed: bool, rest: string)
    requires s != ""
    ensures WellFormed(p) && (p.Plain? ==> closed && Apart(p, rest))
    ensures s == Unended(p) + (if closed then Ending(p) + rest else "")
  {
    var c, t := s[0], s[1..];
    assert s == [c] + t;
    hide Closes, Doubled;
    var text;
    if c == '\'' || c == '"' || c == '`' {
      text, closed, rest := QuotedPart(t, c);
      p := Quoted(c, text);
      Fronted([c], Doubled(text, c), if closed then [c] + rest else "");
    } else if c == '[' {
      text, closed, rest := PartBefore(t, ']');
      p := Bracketed(text);
      Fronted("[", text, if closed then [']'] + rest else "");
    } else if c == '-' && t != "" && t[0] == '-' {
      text, closed, rest := PartBefore(t[1..], '\n');
      p := Line(text);
      assert s == "--" + t[1..];
      Fronted("--", text, if closed then ['\n'] + rest else "");
    } else if c == '/' && t != "" && t[0] == '*' {
      text, closed, rest := BlockPart(t[1..]);
      p := Block(text);
      assert s == "/*" + t[1..];
      Fronted("/*", text, if closed then "*/" + rest else "");
    } else {
      p, closed, rest := Plain(c), true, t;
      assert "" + t == t;
    }
  }

  lemma Fronted(a: string, text: string, tail: string)
    ensures a + (text + tail) == a + text + tail
  {
  }

  lemma OneMore(p: Piece, ps: seq<Piece>, last: Option<Piece>, s: string)
    requires WellFormed(p) && AllWellFormed(ps, last) && Apart(p, Written(ps, last))
    requires s == Unended(p) + (Ending(p) + Written(ps, last))
    ensures AllWellFormed([p] + ps, last) && Written([p] + ps, last) == s
  {
    hide WellFormed, Apart, Ending, Unended;
    assert ([p] + ps)[1..] == ps;
    assert Unended(p) + (Ending(p) + Written(ps, last)) == Unended(p) + Ending(p) + Written(ps, last);
  }

  lemma Shorter(p: Piece, rest: string)
    ensures |Unended(p) + (Ending(p) + rest)| > |rest|
  {
  }

  lemma {:induction false} EveryText(s: string) returns (ps: seq<Piece>, last: Option<Piece>)
    ensures AllWellFormed(ps, last) && Written(ps, last) == s
    decreases |s|
  {
    hide WellFormed, Apart, Ending, Unended;
    ps, last := [], None;
    if s != "" {
      var p, closed, rest := FirstPiece(s);
      if closed {
        Shorter(p, rest);
        ps, last := EveryText(rest);
        NeedsNoGap(p, rest);
        OneMore(p, ps, last, s);
        ps := [p] + ps;
      } else {
        last := Some(p);
        assert Unended(p) + "" == Unended(p);
      }
    }
  }

  lemma NeedsNoGap(p: Piece, rest: string)
    ensures !p.Plain? ==> Apart(p, rest)
  {
  }
}
