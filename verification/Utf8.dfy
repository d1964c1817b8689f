/** UTF-8 text as bytes (Table 3-7 of the Unicode Standard), its characters,
    and the byte copy that byte-walking rewriters share. */
module Utf8 {
  import opened Common

  newtype byte = x: int | 0 <= x < 256

  type Bytes = seq<byte>

  predicate Ascii(b: byte) {
    b < 0x80
  }

  predicate Continuation(b: byte) {
    0x80 <= b < 0xC0
  }

  /** How many bytes a character takes, by its first. */
  function Width(b: byte): (w: nat)
    ensures 1 <= w <= 4
  {
    if b < 0x80 then 1 else if b < 0xE0 then 2 else if b < 0xF0 then 3 else 4
  }

  predicate SecondOk(first: byte, second: byte) {
    && Continuation(second)
    && (first == 0xE0 ==> 0xA0 <= second)
    && (first == 0xED ==> second < 0xA0)
    && (first == 0xF0 ==> 0x90 <= second)
    && (first == 0xF4 ==> second < 0x90)
  }

  /** One well-formed character. */
  predicate CharOk(c: Bytes) {
    && c != [] && |c| == Width(c[0])
    && (Ascii(c[0]) || (0xC2 <= c[0] <= 0xF4 && SecondOk(c[0], c[1])))
    && (forall i :: 1 <= i < |c| ==> Continuation(c[i]))
  }

  /** Well-formed text. */
  predicate Valid(s: Bytes) {
    s == [] || (Width(s[0]) <= |s| && CharOk(s[..Width(s[0])]) && Valid(s[Width(s[0])..]))
  }

  function Chars(s: Bytes): (cs: seq<Bytes>)
    requires Valid(s)
    ensures forall i :: 0 <= i < |cs| ==> CharOk(cs[i])
  {
    if s == [] then [] else [s[..Width(s[0])]] + Chars(s[Width(s[0])..])
  }

  function Flat(cs: seq<Bytes>): Bytes {
    if cs == [] then [] else cs[0] + Flat(cs[1..])
  }

  predicate AllOk(cs: seq<Bytes>) {
    forall i :: 0 <= i < |cs| ==> CharOk(cs[i])
  }

  lemma {:induction false} FlatChars(s: Bytes)
    requires Valid(s)
    ensures Flat(Chars(s)) == s && AllOk(Chars(s))
  {
    if s != [] {
      var w := Width(s[0]);
      FlatChars(s[w..]);
      FlatCons(s[..w], Chars(s[w..]));
      hide Valid, Flat, CharOk;
      assert s == s[..w] + s[w..];
    }
  }

  lemma FlatCons(c: Bytes, cs: seq<Bytes>)
    ensures Flat([c] + cs) == c + Flat(cs)
  {
    assert ([c] + cs)[1..] == cs;
  }

  lemma {:induction false} FlatValid(cs: seq<Bytes>)
    requires AllOk(cs)
    ensures Valid(Flat(cs)) && Chars(Flat(cs)) == cs
  {
    if cs != [] {
      var s, w := Flat(cs), |cs[0]|;
      FlatValid(cs[1..]);
      assert s[..w] == cs[0] && s[w..] == Flat(cs[1..]);
    }
  }

  lemma {:induction false} FlatSplit(a: seq<Bytes>, b: seq<Bytes>)
    ensures Flat(a + b) == Flat(a) + Flat(b)
  {
    if a == [] {
      assert a + b == b;
    } else {
      assert (a + b)[1..] == a[1..] + b;
      FlatSplit(a[1..], b);
    }
  }

  // ----- cutting and joining text ---------------------------------------

  /** A place text may be cut: between characters. */
  predicate Boundary(s: Bytes, i: nat) {
    i == |s| || (i < |s| && !Continuation(s[i]))
  }

  lemma {:induction false} ValidJoin(a: Bytes, b: Bytes)
    requires Valid(a) && Valid(b)
    ensures Valid(a + b)
  {
    if a == [] {
      assert a + b == b;
    } else {
      var w := Width(a[0]);
      ValidJoin(a[w..], b);
      assert (a + b)[..w] == a[..w] && (a + b)[w..] == a[w..] + b;
    }
  }

  lemma {:induction false} ValidCut(s: Bytes, i: nat)
    requires Valid(s) && Boundary(s, i)
    ensures Valid(s[..i]) && Valid(s[i..])
  {
    if i > 0 && i < |s| {
      var w := Width(s[0]);
      assert forall k :: 1 <= k < w ==> s[..w][k] == s[k];
      assert s[w..][i - w..] == s[i..];
      assert i < |s| ==> s[w..][i - w] == s[i];
      ValidCut(s[w..], i - w);
      assert s[..i][..w] == s[..w] && s[..i][w..] == s[w..][..i - w];
    } else if i == 0 {
      assert s[0..] == s;
    } else {
      assert s[..i] == s;
    }
  }

  lemma {:induction false} AsciiValid(s: Bytes)
    requires forall i :: 0 <= i < |s| ==> Ascii(s[i])
    ensures Valid(s)
  {
    if s != [] {
      AsciiValid(s[1..]);
    }
  }

  /** After an ASCII byte there is a boundary. */
  lemma {:induction false} AfterAscii(s: Bytes, i: nat)
    requires Valid(s) && i < |s| && Ascii(s[i])
    ensures Boundary(s, i) && Boundary(s, i + 1)
  {
    var w := Width(s[0]);
    if i >= w {
      assert s[w..][i - w] == s[i];
      AfterAscii(s[w..], i - w);
      assert i + 1 < |s| ==> s[w..][i + 1 - w] == s[i + 1];
    } else {
      assert s[..w][i] == s[i];
      assert i == 0 && w == 1;
      if 1 < |s| {
        assert s[1..][0] == s[1];
        assert CharOk(s[1..][..Width(s[1])]);
        assert s[1..][..Width(s[1])][0] == s[1];
      }
    }
  }

  // ----- push_utf8_byte -------------------------------------------------

  /** What a walk writes for the byte it stands on: an ASCII byte, the character
      a lead byte opens, nothing for a byte inside one. */
  function Pushed(rest: Bytes): Bytes
    requires rest != []
  {
    if Ascii(rest[0]) then [rest[0]]
    else if Continuation(rest[0]) then []
    else rest[..Min(Width(rest[0]), |rest|)]
  }

  lemma PushedChar(c: Bytes, rest: Bytes)
    requires CharOk(c)
    ensures Pushed(c + rest) == c
  {
    assert (c + rest)[..|c|] == c;
  }
}
