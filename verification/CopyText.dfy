/** COPY text: rows written by `migrate_table.py` and read back by
    `seed_shadow_table_from_pg.py`, for text columns and NULLs. */
module CopyText {
  import opened Common

  /** NULL is None. */
  type Row = seq<Option<string>>

  const NULL_MARK := "\\N"

  // ----- writing --------------------------------------------------------

  /** `s.replace(c, with)` for one character. */
  function Replace(s: string, c: char, with: string): string {
    if s == "" then "" else (if s[0] == c then with else [s[0]]) + Replace(s[1..], c, with)
  }

  /** Backslashes, then tabs, then newlines, then carriage returns. */
  function Escaped(s: string): string {
    Replace(Replace(Replace(Replace(s, '\\', "\\\\"), '\t', "\\t"), '\n', "\\n"), '\r', "\\r")
  }

  function Field(v: Option<string>): string {
    if v.None? then NULL_MARK else Escaped(v.value)
  }

  function FieldsOf(row: Row): (r: seq<string>)
    ensures |r| == |row|
  {
    if row == [] then [] else [Field(row[0])] + FieldsOf(row[1..])
  }

  /** `"\t".join(fields)`. */
  function Joined(fields: seq<string>): string {
    if fields == [] then ""
    else if |fields| == 1 then fields[0]
    else fields[0] + "\t" + Joined(fields[1..])
  }

  function Line(row: Row): string {
    Joined(FieldsOf(row)) + "\n"
  }

  function Stream(rows: seq<Row>): string {
    if rows == [] then "" else Line(rows[0]) + Stream(rows[1..])
  }

  lemma FieldsFrom(row: Row, n: nat)
    requires n <= |row|
    ensures FieldsOf(row[n..]) == if n == |row| then [] else [Field(row[n])] + FieldsOf(row[n + 1..])
  {
    assert n < |row| ==> row[n..][1..] == row[n + 1..];
  }

  method WriteRow(row: Row, buf: string) returns (r: string)
    ensures r == buf + Line(row)
  {
    hide FieldsOf, Joined, Replace;
    var fields: seq<string> := [];
    assert row[0..] == row;
    for n := 0 to |row|
      invariant fields + FieldsOf(row[n..]) == FieldsOf(row)
    {
      FieldsFrom(row, n);
      assert fields + ([Field(row[n])] + FieldsOf(row[n + 1..]))
          == fields + [Field(row[n])] + FieldsOf(row[n + 1..]);
      if row[n].None? {
        fields := fields + [NULL_MARK];
      } else {
        var escaped := Replace(row[n].value, '\\', "\\\\");
        escaped := Replace(escaped, '\t', "\\t");
        escaped := Replace(escaped, '\n', "\\n");
        escaped := Replace(escaped, '\r', "\\r");
        fields := fields + [escaped];
      }
    }
    FieldsFrom(row, |row|);
    assert fields == FieldsOf(row);
    r := buf + (Joined(fields) + "\n");
  }

  lemma StreamFrom(rows: seq<Row>, n: nat)
    requires n <= |rows|
    ensures Stream(rows[n..]) == if n == |rows| then "" else Line(rows[n]) + Stream(rows[n + 1..])
  {
    assert n < |rows| ==> rows[n..][1..] == rows[n + 1..];
  }

  /** The rows in batches: what reaches psql does not depend on the batches. */
  method WriteRows(rows: seq<Row>, batchSize: int) returns (sent: string)
    requires batchSize != 0
    ensures sent == Stream(rows)
  {
    hide Stream, Line;
    sent := "";
    var buf := "";
    assert rows[0..] == rows;
    for n := 0 to |rows|
      invariant sent + buf + Stream(rows[n..]) == Stream(rows)
    {
      StreamFrom(rows, n);
      assert sent + buf + (Line(rows[n]) + Stream(rows[n + 1..]))
          == sent + (buf + Line(rows[n])) + Stream(rows[n + 1..]);
      buf := WriteRow(rows[n], buf);
      if n > 0 && (n + 1) % batchSize == 0 {
        assert sent + buf == sent + buf + "";
        sent, buf := sent + buf, "";
      }
    }
    StreamFrom(rows, |rows|);
    if |buf| > 0 {
      sent := sent + buf;
    }
  }

  // ----- decoding a field -----------------------------------------------

  /** The value of a digit, up to hexadecimal. */
  function Digit(c: char): (d: Option<nat>)
    ensures d.Some? ==> d.value < 16
  {
    if '0' <= c <= '9' then Some(c as int - '0' as int)
    else if 'a' <= c <= 'f' then Some(c as int - 'a' as int + 10)
    else if 'A' <= c <= 'F' then Some(c as int - 'A' as int + 10)
    else None
  }

  predicate DigitIn(c: char, base: nat) {
    Digit(c).Some? && Digit(c).value < base
  }

  /** How many digits start a text, counted up to most. */
  function Run(s: string, base: nat, most: nat): (n: nat)
    ensures n <= |s| && n <= most && forall i :: 0 <= i < n ==> DigitIn(s[i], base)
  {
    if s == "" || most == 0 || !DigitIn(s[0], base) then 0 else 1 + Run(s[1..], base, most - 1)
  }

  /** `int(digits, base)`, small enough for three digits to be a character. */
  function NumberOf(digits: string, base: nat): (v: nat)
    requires base == 8 || base == 16
    requires forall i :: 0 <= i < |digits| ==> DigitIn(digits[i], base)
    ensures |digits| == 0 ==> v == 0
    ensures |digits| == 1 ==> v < 16
    ensures |digits| == 2 ==> v < 256
    ensures |digits| == 3 ==> v < 4096
  {
    if digits == "" then 0
    else
      var n := |digits| - 1;
      assert DigitIn(digits[n], base);
      NumberOf(digits[..n], base) * base + Digit(digits[n]).value
  }

  /** What one character after a backslash stands for by itself. */
  function Letter(c: char): Option<char> {
    if c == 'b' then Some('\U{8}')
    else if c == 'f' then Some('\U{c}')
    else if c == 'n' then Some('\n')
    else if c == 'r' then Some('\r')
    else if c == 't' then Some('\t')
    else if c == 'v' then Some('\U{b}')
    else if c == '\\' then Some('\\')
    else None
  }

  /** What a backslash and the text after it stand for, and how long they are. */
  function EscapeAt(s: string): (r: (char, nat))
    requires |s| >= 2 && s[0] == '\\'
    ensures 2 <= r.1 <= |s|
  {
    if Letter(s[1]).Some? then (Letter(s[1]).value, 2)
    else if s[1] == 'x' && Run(s[2..], 16, 2) > 0 then
      var n := Run(s[2..], 16, 2);
      (NumberOf(s[2..][..n], 16) as char, 2 + n)
    else if DigitIn(s[1], 8) then
      var n := Run(s[1..], 8, 3);
      (NumberOf(s[1..][..n], 8) as char, 1 + n)
    else (s[1], 2)
  }

  function Decode(s: string): string {
    if s == "" then ""
    else if s[0] != '\\' || |s| == 1 then [s[0]] + Decode(s[1..])
    else [EscapeAt(s).0] + Decode(s[EscapeAt(s).1..])
  }

  /** The digits from start on, as the loops of the decoder collect them. */
  method CollectDigits(raw: string, start: nat, first: string, base: nat, most: nat) returns (digits: string, j: nat)
    requires start <= |raw| && |first| <= most
    ensures j == start + Run(raw[start..], base, most - |first|)
    ensures digits == first + raw[start..j]
  {
    digits, j := first, start;
    while j < |raw| && |digits| < most && DigitIn(raw[j], base)
      invariant start <= j <= |raw| && |digits| <= most
      invariant digits == first + raw[start..j]
      invariant j + Run(raw[j..], base, most - |digits|) == start + Run(raw[start..], base, most - |first|)
    {
      assert raw[j..][1..] == raw[j + 1..];
      assert raw[start..j] + [raw[j]] == raw[start..j + 1];
      digits := digits + [raw[j]];
      j := j + 1;
    }
  }

  /** The character an escape stands for and the place after it. */
  method DecodeEscape(raw: string, i: nat) returns (c: char, j: nat)
    requires i + 1 < |raw| && raw[i] == '\\'
    ensures (c, j - i) == EscapeAt(raw[i..])
  {
    hide Letter, Digit, NumberOf;
    var s := raw[i..];
    var next := raw[i + 1];
    if Letter(next).Some? {
      return Letter(next).value, i + 2;
    }
    if next == 'x' {
      var digits;
      digits, j := CollectDigits(raw, i + 2, "", 16, 2);
      assert s[2..] == raw[i + 2..] && s[2..][..j - i - 2] == digits;
      if digits != "" {
        return NumberOf(digits, 16) as char, j;
      }
    }
    if DigitIn(next, 8) {
      var digits;
      digits, j := CollectDigits(raw, i + 2, [next], 8, 3);
      assert s[1..][1..] == raw[i + 2..] && s[1..][..j - i - 1] == digits;
      return NumberOf(digits, 8) as char, j;
    }
    return next, i + 2;
  }

  method DecodeField(raw: string) returns (out: string)
    ensures out == Decode(raw)
  {
    hide Decode, EscapeAt;
    if '\\' !in raw {
      PlainDecodes(raw);
      return raw;
    }
    out := "";
    var i := 0;
    assert raw[0..] == raw;
    while i < |raw|
      invariant i <= |raw|
      invariant out + Decode(raw[i..]) == Decode(raw)
    {
      DecodeAt(raw, i);
      if raw[i] != '\\' || i + 1 >= |raw| {
        assert out + ([raw[i]] + Decode(raw[i + 1..])) == out + [raw[i]] + Decode(raw[i + 1..]);
        out := out + [raw[i]];
        i := i + 1;
      } else {
        var c, j := DecodeEscape(raw, i);
        assert out + ([c] + Decode(raw[j..])) == out + [c] + Decode(raw[j..]);
        out := out + [c];
        i := j;
      }
    }
    DecodeNothing();
    assert raw[i..] == "";
  }

  lemma DecodeNothing()
    ensures Decode("") == ""
  {
  }

  lemma DecodeAt(raw: string, i: nat)
    requires i < |raw|
    ensures Decode(raw[i..]) ==
      if raw[i] != '\\' || i + 1 >= |raw| then [raw[i]] + Decode(raw[i + 1..])
      else [EscapeAt(raw[i..]).0] + Decode(raw[i + EscapeAt(raw[i..]).1..])
  {
    var s := raw[i..];
    assert s[1..] == raw[i + 1..];
    if raw[i] == '\\' && i + 1 < |raw| {
      assert s[EscapeAt(s).1..] == raw[i + EscapeAt(s).1..];
    }
  }

  // ----- the escapes one by one -----------------------------------------

  lemma DecodeEscaped(s: string, c: char, n: nat)
    requires |s| >= 2 && s[0] == '\\' && EscapeAt(s) == (c, n)
    ensures Decode(s) == [c] + Decode(s[n..])
  {
    hide EscapeAt;
  }

  /** Backspace, form feed, newline, carriage return, tab, vertical tab, and a
      backslash. */
  lemma LetterDecodes(rest: string)
    ensures Decode(['\\', 'b'] + rest) == ['\U{0008}'] + Decode(rest)
    ensures Decode(['\\', 'f'] + rest) == ['\U{000C}'] + Decode(rest)
    ensures Decode(['\\', 'n'] + rest) == ['\U{000A}'] + Decode(rest)
    ensures Decode(['\\', 'r'] + rest) == ['\U{000D}'] + Decode(rest)
    ensures Decode(['\\', 't'] + rest) == ['\U{0009}'] + Decode(rest)
    ensures Decode(['\\', 'v'] + rest) == ['\U{000B}'] + Decode(rest)
    ensures Decode(['\\', '\\'] + rest) == ['\\'] + Decode(rest)
  {
    hide Decode;
    OneLetter('b', rest);
    OneLetter('f', rest);
    OneLetter('n', rest);
    OneLetter('r', rest);
    OneLetter('t', rest);
    OneLetter('v', rest);
    OneLetter('\\', rest);
  }

  lemma OneLetter(c: char, rest: string)
    requires Letter(c).Some?
    ensures Decode(['\\', c] + rest) == [Letter(c).value] + Decode(rest)
  {
    var s := ['\\', c] + rest;
    assert s[2..] == rest;
    DecodeEscaped(s, Letter(c).value, 2);
  }

  /** A character that begins no escape stands for itself. */
  lemma OtherDecodes(c: char, rest: string)
    requires c !in "bfnrtv\\x" && !('0' <= c <= '7')
    ensures Decode(['\\', c] + rest) == [c] + Decode(rest)
  {
    var s := ['\\', c] + rest;
    assert s[2..] == rest;
    var t := "bfnrtv\\x";
    assert t[0] == 'b' && t[1] == 'f' && t[2] == 'n' && t[3] == 'r' && t[4] == 't' && t[5] == 'v' && t[6] == '\\'
        && t[7] == 'x';
    DecodeEscaped(s, c, 2);
  }

  /** The digits of a number up to seven or fifteen, the letters in either
      case. */
  predicate Writes(c: char, d: nat) {
    || (d < 10 && c as int == '0' as int + d)
    || (10 <= d < 16 && (c as int == 'a' as int + (d - 10) || c as int == 'A' as int + (d - 10)))
  }

  predicate WritesAll(digits: string, ds: seq<nat>, base: nat) {
    |digits| == |ds| && forall i :: 0 <= i < |ds| ==> ds[i] < base && Writes(digits[i], ds[i])
  }

  /** The digits are not followed by another that would belong to them. */
  predicate Stops(rest: string, base: nat) {
    rest != "" ==> forall d: nat :: d < base && d < 16 ==> !Writes(rest[0], d)
  }

  lemma WrittenDigit(c: char, d: nat)
    requires Writes(c, d)
    ensures Digit(c) == Some(d)
  {
  }

  lemma NoDigit(c: char, base: nat)
    requires base <= 16 && forall d: nat :: d < base && d < 16 ==> !Writes(c, d)
    ensures !DigitIn(c, base)
  {
    if Digit(c).Some? {
      assert Writes(c, Digit(c).value);
    }
  }

  lemma {:induction false} RunReads(digits: string, ds: seq<nat>, rest: string, base: nat, most: nat)
    requires base <= 16 && WritesAll(digits, ds, base) && |ds| <= most && (|ds| == most || Stops(rest, base))
    ensures Run(digits + rest, base, most) == |ds|
    decreases digits
  {
    if digits == "" {
      assert digits + rest == rest;
      if rest != "" && most > 0 {
        NoDigit(rest[0], base);
      }
    } else {
      WrittenDigit(digits[0], ds[0]);
      RunReads(digits[1..], ds[1..], rest, base, most - 1);
      assert (digits + rest)[1..] == digits[1..] + rest;
    }
  }

  lemma NumberReads(digits: string, ds: seq<nat>, base: nat)
    requires base == 8 || base == 16
    requires WritesAll(digits, ds, base) && 1 <= |ds| <= 3
    ensures forall i :: 0 <= i < |digits| ==> DigitIn(digits[i], base)
    ensures NumberOf(digits, base) ==
      if |ds| == 1 then ds[0] else if |ds| == 2 then ds[0] * base + ds[1] else (ds[0] * base + ds[1]) * base + ds[2]
  {
    forall i | 0 <= i < |digits|
      ensures Digit(digits[i]) == Some(ds[i])
    {
      WrittenDigit(digits[i], ds[i]);
    }
    hide Digit;
    NumberOfOne(digits[..1], base);
    if |ds| == 1 {
      assert digits[..1] == digits;
    } else if |ds| == 2 {
      NumberOfMore(digits, base);
    } else {
      NumberOfMore(digits[..2], base);
      NumberOfMore(digits, base);
      assert digits[..2][..1] == digits[..1];
    }
  }

  lemma NumberOfOne(digits: string, base: nat)
    requires (base == 8 || base == 16) && |digits| == 1 && DigitIn(digits[0], base)
    ensures NumberOf(digits, base) == Digit(digits[0]).value
  {
    assert digits[..0] == "";
  }

  lemma NumberOfMore(digits: string, base: nat)
    requires (base == 8 || base == 16) && |digits| > 1 && forall i :: 0 <= i < |digits| ==> DigitIn(digits[i], base)
    ensures var n := |digits| - 1;
      NumberOf(digits, base) == NumberOf(digits[..n], base) * base + Digit(digits[n]).value
  {
  }

  /** One to three octal digits. */
  lemma OctalDecodes(digits: string, ds: seq<nat>, rest: string)
    requires 1 <= |ds| <= 3 && WritesAll(digits, ds, 8) && (|ds| == 3 || Stops(rest, 8))
    ensures var v := if |ds| == 1 then ds[0] else if |ds| == 2 then ds[0] * 8 + ds[1]
                     else ds[0] * 64 + ds[1] * 8 + ds[2];
      Decode(['\\'] + digits + rest) == [v as char] + Decode(rest)
  {
    var s := ['\\'] + digits + rest;
    assert s[1..] == digits + rest && s[1] == digits[0] && (digits + rest)[..|ds|] == digits;
    assert s[1 + |ds|..] == rest;
    RunReads(digits, ds, rest, 8, 3);
    NumberReads(digits, ds, 8);
    WrittenDigit(digits[0], ds[0]);
    hide NumberOf, Run, Decode, Digit;
    DecodeEscaped(s, NumberOf(digits, 8) as char, 1 + |ds|);
  }

  /** An x and one or two hexadecimal digits. */
  lemma HexDecodes(digits: string, ds: seq<nat>, rest: string)
    requires 1 <= |ds| <= 2 && WritesAll(digits, ds, 16) && (|ds| == 2 || Stops(rest, 16))
    ensures var v := if |ds| == 1 then ds[0] else ds[0] * 16 + ds[1];
      Decode(['\\', 'x'] + digits + rest) == [v as char] + Decode(rest)
  {
    var s := ['\\', 'x'] + digits + rest;
    assert s[2..] == digits + rest && (digits + rest)[..|ds|] == digits;
    assert s[2 + |ds|..] == rest;
    RunReads(digits, ds, rest, 16, 2);
    NumberReads(digits, ds, 16);
    hide NumberOf, Run, Decode, Digit;
    DecodeEscaped(s, NumberOf(digits, 16) as char, 2 + |ds|);
  }

  /** An x without them is an x, and a backslash at the end a backslash. */
  lemma LoneDecodes(rest: string)
    requires Stops(rest, 16)
    ensures Decode(['\\', 'x'] + rest) == ['x'] + Decode(rest)
    ensures Decode(['\\']) == ['\\']
  {
    var s := ['\\', 'x'] + rest;
    assert s[2..] == rest;
    if rest != "" {
      NoDigit(rest[0], 16);
    }
    DecodeEscaped(s, 'x', 2);
    assert ['\\'][1..] == "";
  }

  lemma {:induction false} PlainDecodes(s: string)
    requires '\\' !in s
    ensures Decode(s) == s
  {
    if s != "" {
      PlainDecodes(s[1..]);
    }
  }

  // ----- reading a stream -----------------------------------------------

  function Convert(field: string): Option<string> {
    if field == NULL_MARK then None else Some(Decode(field))
  }

  /** `line.split("\t")`. */
  function Split(line: string): (r: seq<string>)
    ensures r != []
  {
    if line == "" then [""]
    else if line[0] == '\t' then [""] + Split(line[1..])
    else
      var rest := Split(line[1..]);
      [[line[0]] + rest[0]] + rest[1..]
  }

  function ConvertAll(fields: seq<string>): (row: Row)
    ensures |row| == |fields|
  {
    if fields == [] then [] else [Convert(fields[0])] + ConvertAll(fields[1..])
  }

  /** Where the first line ends, its terminator included: a newline, a carriage
      return, or the two together. */
  function LineEnd(text: string): (n: nat)
    requires text != ""
    ensures 0 < n <= |text|
  {
    if text[0] == '\n' then 1
    else if text[0] == '\r' then (if |text| > 1 && text[1] == '\n' then 2 else 1)
    else if |text| == 1 then 1
    else 1 + LineEnd(text[1..])
  }

  function WithoutNewlines(line: string): string {
    if line != "" && line[|line| - 1] == '\n' then WithoutNewlines(line[..|line| - 1]) else line
  }

  /** The line without its newline, and without a carriage return before it. */
  function Chomp(line: string): string {
    var l := WithoutNewlines(line);
    if l != "" && l[|l| - 1] == '\r' then l[..|l| - 1] else l
  }

  /** One line read: None when it has another number of fields. */
  function ReadLine(line: string, columns: nat): Option<Row> {
    var fields := Split(Chomp(line));
    if |fields| != columns then None else Some(ConvertAll(fields))
  }

  function Read(text: string, columns: nat): Option<seq<Row>> {
    if text == "" then Some([])
    else
      var n := LineEnd(text);
      After(ReadLine(text[..n], columns), Read(text[n..], columns))
  }

  function After(row: Option<Row>, rest: Option<seq<Row>>): Option<seq<Row>> {
    if row.None? || rest.None? then None else Some([row.value] + rest.value)
  }

  function Behind(rows: seq<Row>, rest: Option<seq<Row>>): Option<seq<Row>> {
    if rest.None? then None else Some(rows + rest.value)
  }

  lemma ReadStep(rows: seq<Row>, text: string, columns: nat)
    requires text != ""
    ensures var n := LineEnd(text);
      var row := ReadLine(text[..n], columns);
      Behind(rows, Read(text, columns)) ==
        if row.None? then None else Behind(rows + [row.value], Read(text[n..], columns))
  {
    hide ReadLine;
    var n := LineEnd(text);
    var row, rest := ReadLine(text[..n], columns), Read(text[n..], columns);
    if row.Some? && rest.Some? {
      assert rows + ([row.value] + rest.value) == rows + [row.value] + rest.value;
    }
  }

  /** The rows of a stream; None is the failure on a wrong field count. */
  method ReadRows(text: string, columns: nat) returns (r: Option<seq<Row>>)
    ensures r == Read(text, columns)
  {
    hide Read, ReadLine;
    var rest, rows: seq<Row> := text, [];
    BehindNothing(Read(text, columns));
    while rest != ""
      invariant Behind(rows, Read(rest, columns)) == Read(text, columns)
      decreases |rest|
    {
      ReadStep(rows, rest, columns);
      var n := LineEnd(rest);
      var row := ReadLine(rest[..n], columns);
      if row.None? {
        return None;
      }
      rows, rest := rows + [row.value], rest[n..];
    }
    ReadNothing(columns);
    assert rows + [] == rows;
    r := Some(rows);
  }

  lemma ReadNothing(columns: nat)
    ensures Read("", columns) == Some([])
  {
  }

  lemma BehindNothing(r: Option<seq<Row>>)
    ensures Behind([], r) == r
  {
    if r.Some? {
      assert [] + r.value == r.value;
    }
  }

  // ----- what escaping does ---------------------------------------------

  function EscapedChar(c: char): string {
    if c == '\\' then "\\\\"
    else if c == '\t' then "\\t"
    else if c == '\n' then "\\n"
    else if c == '\r' then "\\r"
    else [c]
  }

  lemma {:induction false} ReplaceSplit(a: string, t: string, c: char, with: string)
    ensures Replace(a + t, c, with) == Replace(a, c, with) + Replace(t, c, with)
  {
    if a == "" {
      assert a + t == t;
    } else {
      assert (a + t)[1..] == a[1..] + t;
      ReplaceSplit(a[1..], t, c, with);
    }
  }

  lemma {:induction false} ReplaceNone(s: string, c: char, with: string)
    requires c !in s
    ensures Replace(s, c, with) == s
  {
    if s != "" {
      ReplaceNone(s[1..], c, with);
    }
  }

  lemma ReplaceOne(c: char, with: string)
    ensures Replace([c], c, with) == with
  {
    assert [c][1..] == "";
  }

  /** The four replacements of one character. */
  lemma EscapedOne(c: char)
    ensures Escaped([c]) == EscapedChar(c)
  {
    hide Replace;
    var e := if c == '\\' then "\\\\" else [c];
    if c == '\\' { ReplaceOne(c, "\\\\"); } else { ReplaceNone([c], '\\', "\\\\"); }
    var f := if c == '\t' then "\\t" else e;
    if c == '\t' { ReplaceOne(c, "\\t"); } else { ReplaceNone(e, '\t', "\\t"); }
    var g := if c == '\n' then "\\n" else f;
    if c == '\n' { ReplaceOne(c, "\\n"); } else { ReplaceNone(f, '\n', "\\n"); }
    if c == '\r' { ReplaceOne(c, "\\r"); } else { ReplaceNone(g, '\r', "\\r"); }
  }

  /** The replacements, one after the other, are one map of the characters. */
  lemma EscapedCons(c: char, s: string)
    ensures Escaped([c] + s) == EscapedChar(c) + Escaped(s)
  {
    hide Replace;
    EscapedOne(c);
    var a, b := [c], s;
    ReplaceSplit(a, b, '\\', "\\\\");
    a, b := Replace(a, '\\', "\\\\"), Replace(b, '\\', "\\\\");
    ReplaceSplit(a, b, '\t', "\\t");
    a, b := Replace(a, '\t', "\\t"), Replace(b, '\t', "\\t");
    ReplaceSplit(a, b, '\n', "\\n");
    a, b := Replace(a, '\n', "\\n"), Replace(b, '\n', "\\n");
    ReplaceSplit(a, b, '\r', "\\r");
  }

  predicate Clean(c: char) {
    c != '\t' && c != '\n' && c != '\r'
  }

  predicate AllClean(s: string) {
    forall i :: 0 <= i < |s| ==> Clean(s[i])
  }

  lemma EscapedNothing()
    ensures Escaped("") == ""
  {
  }

  /** An escaped field holds no tab, newline or carriage return, is not the
      NULL mark, and decodes to what was escaped. */
  lemma {:induction false} EscapedReads(s: string)
    ensures AllClean(Escaped(s)) && Escaped(s) != NULL_MARK && Decode(Escaped(s)) == s
  {
    hide Escaped, Decode;
    if s == "" {
      EscapedNothing();
      DecodeNothing();
    } else {
      assert s == [s[0]] + s[1..];
      EscapedCons(s[0], s[1..]);
      EscapedReads(s[1..]);
      DecodesChar(s[0], Escaped(s[1..]));
      var e := EscapedChar(s[0]);
      assert Escaped(s)[0] == e[0] && (|e| == 2 ==> Escaped(s)[1] == e[1]);
    }
  }

  lemma DecodesChar(c: char, rest: string)
    ensures Decode(EscapedChar(c) + rest) == [c] + Decode(rest)
  {
    var s := EscapedChar(c) + rest;
    if Clean(c) && c != '\\' {
      assert s[1..] == rest;
    } else {
      hide NumberOf, Run, Digit;
      assert s[0] == '\\' && Letter(s[1]) == Some(c) && s[2..] == rest;
      assert EscapeAt(s) == (c, 2);
    }
  }

  lemma FieldReads(v: Option<string>)
    ensures AllClean(Field(v)) && Convert(Field(v)) == v
  {
    hide Escaped, Decode;
    if v.Some? {
      EscapedReads(v.value);
    }
  }

  lemma {:induction false} FieldsRead(row: Row)
    ensures forall i :: 0 <= i < |row| ==> AllClean(FieldsOf(row)[i])
    ensures ConvertAll(FieldsOf(row)) == row
  {
    hide Field, Convert, AllClean;
    if row != [] {
      FieldReads(row[0]);
      FieldsRead(row[1..]);
      assert FieldsOf(row)[1..] == FieldsOf(row[1..]);
    }
  }

  // ----- lines and fields -----------------------------------------------

  lemma {:induction false} SplitOne(field: string, rest: string)
    requires AllClean(field)
    ensures Split(field) == [field]
    ensures Split(field + "\t" + rest) == [field] + Split(rest)
    decreases field
  {
    var s := field + "\t" + rest;
    if field == "" {
      assert s[1..] == rest;
    } else {
      SplitOne(field[1..], rest);
      assert s[1..] == field[1..] + "\t" + rest;
      assert [field[0]] + field[1..] == field;
    }
  }

  lemma {:induction false} SplitJoined(fields: seq<string>)
    requires fields != [] && forall i :: 0 <= i < |fields| ==> AllClean(fields[i])
    ensures Split(Joined(fields)) == fields
    ensures forall i :: 0 <= i < |Joined(fields)| ==> Joined(fields)[i] != '\n' && Joined(fields)[i] != '\r'
  {
    hide Split;
    SplitOne(fields[0], Joined(fields[1..]));
    if |fields| > 1 {
      SplitJoined(fields[1..]);
      assert [fields[0]] + fields[1..] == fields;
    } else {
      assert [fields[0]] == fields;
    }
  }

  lemma {:induction false} LineEnds(body: string, rest: string)
    requires '\n' !in body && '\r' !in body
    ensures LineEnd(body + "\n" + rest) == |body| + 1
    decreases body
  {
    var s := body + "\n" + rest;
    if body != "" {
      LineEnds(body[1..], rest);
      assert s[1..] == body[1..] + "\n" + rest;
    }
  }

  lemma Chomps(body: string)
    requires '\n' !in body && '\r' !in body
    ensures Chomp(body + "\n") == body
  {
    assert (body + "\n")[..|body|] == body;
    assert WithoutNewlines(body) == body;
  }

  lemma LineReads(row: Row, columns: nat)
    requires row != []
    ensures ReadLine(Line(row), columns) == if |row| == columns then Some(row) else None
  {
    hide Joined, Split, Chomp, ConvertAll, FieldsOf;
    FieldsRead(row);
    SplitJoined(FieldsOf(row));
    Chomps(Joined(FieldsOf(row)));
  }

  lemma FirstLine(row: Row, rest: string)
    requires row != []
    ensures LineEnd(Line(row) + rest) == |Line(row)|
  {
    hide Joined, Split, FieldsOf;
    var body := Joined(FieldsOf(row));
    FieldsRead(row);
    SplitJoined(FieldsOf(row));
    LineEnds(body, rest);
    assert Line(row) + rest == body + "\n" + rest;
  }

  /** Rows written are the rows read, and the reader refuses a stream exactly
      when some row has another number of columns than it expects. */
  lemma {:induction false} StreamReads(rows: seq<Row>, columns: nat)
    requires forall i :: 0 <= i < |rows| ==> rows[i] != []
    ensures Read(Stream(rows), columns) ==
      if forall i :: 0 <= i < |rows| ==> |rows[i]| == columns then Some(rows) else None
  {
    hide Line, ReadLine, LineEnd;
    if rows != [] {
      var row, rest := rows[0], rows[1..];
      var text := Stream(rows);
      StreamReads(rest, columns);
      FirstLine(row, Stream(rest));
      LineReads(row, columns);
      LineNotEmpty(row);
      assert text[..|Line(row)|] == Line(row) && text[|Line(row)|..] == Stream(rest);
      assert rows == [row] + rest;
      assert forall i :: 0 <= i < |rest| ==> rest[i] == rows[i + 1];
      assert forall i :: 1 <= i < |rows| ==> rows[i] == rest[i - 1];
    }
  }

  lemma LineNotEmpty(row: Row)
    ensures Line(row) != ""
  {
  }

  // ----- lines as they may end ------------------------------------------

  /** A line ends with a newline, a carriage return or both, or with the text. */
  predicate Ends(body: string, ending: string, rest: string) {
    || ending == "\n" || ending == "\r\n"
    || (ending == "\r" && (rest != "" ==> rest[0] != '\n'))
    || (ending == "" && rest == "" && body != "")
  }

  lemma {:induction false} LineEndsSo(body: string, ending: string, rest: string)
    requires '\n' !in body && '\r' !in body && Ends(body, ending, rest)
    ensures LineEnd(body + (ending + rest)) == |body| + |ending|
    decreases body
  {
    var s := body + (ending + rest);
    if |body| <= 1 && ending == "" {
      assert s == body;
    } else if body == "" {
      assert s == ending + rest;
    } else {
      LineEndsSo(body[1..], ending, rest);
      assert s[1..] == body[1..] + (ending + rest);
    }
  }

  lemma ChompsSo(body: string, ending: string)
    requires '\n' !in body && '\r' !in body && ending in {"\n", "\r\n", "\r", ""}
    ensures Chomp(body + ending) == body
  {
    assert WithoutNewlines(body) == body;
    if ending == "\n" {
      Chomps(body);
    } else if ending == "\r\n" {
      assert (body + ending)[..|body| + 1] == body + "\r";
      assert WithoutNewlines(body + "\r") == body + "\r";
      assert (body + "\r")[..|body|] == body;
    } else if ending == "\r" {
      assert WithoutNewlines(body + "\r") == body + "\r";
      assert (body + "\r")[..|body|] == body;
    } else {
      assert body + ending == body;
    }
  }

  /** A line of fields, however it ends, is one row, and reading goes on behind
      it. */
  lemma LineRead(fields: seq<string>, ending: string, rest: string, columns: nat)
    requires fields != [] && (forall i :: 0 <= i < |fields| ==> AllClean(fields[i]))
    requires Ends(Joined(fields), ending, rest)
    ensures Read(Joined(fields) + (ending + rest), columns)
         == After(if |fields| == columns then Some(ConvertAll(fields)) else None, Read(rest, columns))
  {
    hide Joined, Split, Chomp, ConvertAll, LineEnd, Read;
    var body := Joined(fields);
    var text := body + (ending + rest);
    SplitJoined(fields);
    LineEndsSo(body, ending, rest);
    ChompsSo(body, ending);
    var n := |body| + |ending|;
    assert text[..n] == body + ending && text[n..] == rest;
    ReadFirst(text, columns);
  }

  lemma ReadFirst(text: string, columns: nat)
    requires text != ""
    ensures Read(text, columns) == After(ReadLine(text[..LineEnd(text)], columns), Read(text[LineEnd(text)..], columns))
  {
    hide ReadLine, LineEnd;
  }
}
