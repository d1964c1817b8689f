/** `sql_translate`: the translator behind a cache of 256 entries, one thread's
    own. */
module TranslateCache {
  import opened Common
  import opened Utf8

  const SIZE := 256
  const TWO_64 := 0x1_0000_0000_0000_0000

  // ----- FNV-1a ---------------------------------------------------------

  function Xor(a: byte, b: byte): byte {
    ((a as bv8) ^ (b as bv8)) as byte
  }

  /** One round on 64 bits: the byte into the low bits, then a multiplication
      that wraps. */
  function Round(h: nat, b: byte): (r: nat)
    ensures r < TWO_64
  {
    (h - h % 256 + Xor((h % 256) as byte, b) as int) * 1099511628211 % TWO_64
  }

  function Hash(s: Bytes): (h: nat)
    ensures h < TWO_64
  {
    if s == [] then 14695981039346656037 else Round(Hash(s[..|s| - 1]), s[|s| - 1])
  }

  method HashSqlBytes(s: Bytes) returns (h: nat)
    ensures h == Hash(s)
  {
    h := 14695981039346656037;
    for n := 0 to |s|
      invariant h == Hash(s[..n])
    {
      assert s[..n + 1][..n] == s[..n];
      h := Round(h, s[n]);
    }
    assert s[..|s|] == s;
  }

  lemma XorOne()
    ensures Xor(0x25, 0x61) == 0x44
  {
    assert (0x25 as bv8) ^ (0x61 as bv8) == 0x44 as bv8;
  }

  /** FNV's own test vectors for the empty text and "a". */
  lemma HashVectors()
    ensures Hash([]) == 0xcbf29ce484222325 && Hash([0x61]) == 0xaf63dc4c8601ec8c
  {
    XorOne();
    hide Xor;
    assert [0x61][..0] == [];
  }

  // ----- the cache ------------------------------------------------------

  /** What a caller gets: the translation, or that there is none. */
  datatype Outcome = Ok(sql: Bytes, paramNames: seq<Option<Bytes>>) | Failed

  datatype CacheEntry = CacheEntry(hash: nat, input: Bytes, sql: Bytes, paramNames: seq<Option<Bytes>>)

  type Entries = es: seq<Option<CacheEntry>> | |es| == SIZE witness NoEntries()

  function NoEntries(): (es: seq<Option<CacheEntry>>)
    ensures |es| == SIZE && forall i :: 0 <= i < SIZE ==> es[i] == None
  {
    seq(SIZE, _ => None)
  }

  function Find(entries: Entries, input: Bytes): Option<Outcome> {
    var e := entries[Hash(input) % SIZE];
    if e.Some? && e.value.hash == Hash(input) && e.value.input == input
    then Some(Ok(e.value.sql, e.value.paramNames)) else None
  }

  function Stored(entries: Entries, input: Bytes, r: Outcome): Entries {
    if r.Failed? then entries
    else entries[Hash(input) % SIZE := Some(CacheEntry(Hash(input), input, r.sql, r.paramNames))]
  }

  /** The translator.  It reads whether case_sensitive_like is on, and
      translating that pragma sets it: an answer, and the flag after it. */
  type Translator = (bool, Bytes) -> (Outcome, bool)

  /** An uncached call.  No text, or one that is not UTF-8, is refused. */
  function Direct(translate: Translator, flag: bool, input: Option<Bytes>): (Outcome, bool) {
    if input.None? || !Valid(input.value) then (Failed, flag) else translate(flag, input.value)
  }

  /** A cached call: its answer, the flag and the entries after it. */
  function Cached(translate: Translator, flag: bool, entries: Entries, input: Option<Bytes>)
    : (Outcome, bool, Entries)
  {
    if input.None? || !Valid(input.value) then (Failed, flag, entries)
    else
      var hit := Find(entries, input.value);
      if hit.Some? then (hit.value, flag, entries)
      else
        var (r, after) := translate(flag, input.value);
        (r, after, Stored(entries, input.value, r))
  }

  class TranslationCache {
    var entries: Entries

    constructor ()
      ensures entries == NoEntries()
    {
      entries := NoEntries();
    }

    method Lookup(sql: Bytes, hash: nat) returns (r: Option<Outcome>)
      requires hash == Hash(sql)
      ensures r == Find(entries, sql)
    {
      var idx := hash % SIZE;
      if entries[idx].Some? {
        var entry := entries[idx].value;
        if entry.hash == hash && entry.input == sql {
          return Some(Ok(entry.sql, entry.paramNames));
        }
      }
      r := None;
    }

    method Store(sql: Bytes, hash: nat, translated: Bytes, paramNames: seq<Option<Bytes>>)
      requires hash == Hash(sql)
      modifies this
      ensures entries == Stored(old(entries), sql, Ok(translated, paramNames))
    {
      var entry := CacheEntry(hash, sql, translated, paramNames);
      var idx := hash % SIZE;
      entries := entries[idx := Some(entry)];
    }

    method SqlTranslate(translate: Translator, flag: bool, input: Option<Bytes>) returns (r: Outcome, after: bool)
      modifies this
      ensures (r, after, entries) == Cached(translate, flag, old(entries), input)
    {
      if input.None? || !Valid(input.value) {
        return Failed, flag;
      }
      var hash := HashSqlBytes(input.value);
      var hit := Lookup(input.value, hash);
      if hit.Some? {
        return hit.value, flag;
      }
      var reply := translate(flag, input.value);
      r, after := reply.0, reply.1;
      if r.Failed? {
        return;
      }
      Store(input.value, hash, r.sql, r.paramNames);
    }
  }

  // ----- histories ------------------------------------------------------

  /** A translation asked for on this thread, or the flag, which is the
      process's, set by another. */
  datatype Event = Ask(input: Option<Bytes>) | Elsewhere(on: bool)

  function DirectAnswers(f: Translator, flag: bool, events: seq<Event>): seq<Outcome>
    decreases events
  {
    if events == [] then []
    else
      match events[0]
      case Ask(input) =>
        var (r, after) := Direct(f, flag, input);
        [r] + DirectAnswers(f, after, events[1..])
      case Elsewhere(on) => DirectAnswers(f, on, events[1..])
  }

  function Answers(f: Translator, flag: bool, entries: Entries, events: seq<Event>): seq<Outcome>
    decreases events
  {
    if events == [] then []
    else
      match events[0]
      case Ask(input) =>
        var (r, after, left) := Cached(f, flag, entries, input);
        [r] + Answers(f, after, left, events[1..])
      case Elsewhere(on) => Answers(f, on, entries, events[1..])
  }

  lemma NextAsk(f: Translator, flag: bool, entries: Entries, input: Option<Bytes>, rest: seq<Event>)
    ensures DirectAnswers(f, flag, [Ask(input)] + rest)
         == [Direct(f, flag, input).0] + DirectAnswers(f, Direct(f, flag, input).1, rest)
    ensures Answers(f, flag, entries, [Ask(input)] + rest)
         == [Cached(f, flag, entries, input).0]
          + Answers(f, Cached(f, flag, entries, input).1, Cached(f, flag, entries, input).2, rest)
  {
    assert ([Ask(input)] + rest)[1..] == rest;
  }

  lemma NoAnswers(f: Translator, flag: bool, entries: Entries)
    ensures DirectAnswers(f, flag, []) == [] && Answers(f, flag, entries, []) == []
  {
  }

  lemma NextElsewhere(f: Translator, flag: bool, entries: Entries, on: bool, rest: seq<Event>)
    ensures DirectAnswers(f, flag, [Elsewhere(on)] + rest) == DirectAnswers(f, on, rest)
    ensures Answers(f, flag, entries, [Elsewhere(on)] + rest) == Answers(f, on, entries, rest)
  {
    assert ([Elsewhere(on)] + rest)[1..] == rest;
  }

  // ----- transparency ---------------------------------------------------

  /** Every entry holds the answer to its text. */
  ghost predicate Right(answer: Bytes -> Outcome, entries: Entries) {
    forall i :: 0 <= i < SIZE && entries[i].Some? ==> EntryRight(answer, entries[i].value)
  }

  predicate EntryRight(answer: Bytes -> Outcome, e: CacheEntry) {
    answer(e.input) == Ok(e.sql, e.paramNames)
  }

  lemma CachedAnswers(f: Translator, flag: bool, entries: Entries, input: Option<Bytes>, answer: Bytes -> Outcome)
    requires Right(answer, entries)
    requires input.Some? && Valid(input.value) ==> f(flag, input.value).0 == answer(input.value)
    ensures Cached(f, flag, entries, input).0 == Direct(f, flag, input).0
    ensures Right(answer, Cached(f, flag, entries, input).2)
  {
    hide Hash, Valid;
    if input.Some? && Valid(input.value) {
      var e := entries[Hash(input.value) % SIZE];
      if e.Some? {
        assert EntryRight(answer, e.value);
      }
    }
  }

  /** The flag stays what it is: no other thread changes it, and no text asked
      for does. */
  predicate Steady(f: Translator, flag: bool, events: seq<Event>) {
    forall i :: 0 <= i < |events| ==>
      match events[i]
      case Ask(input) => input.Some? ==> f(flag, input.value).1 == flag
      case Elsewhere(on) => on == flag
  }

  /** With the flag left alone, over every history, hash and slot collisions
      included, the cache answers what the translator does. */
  lemma {:induction false} SteadyIsTransparent(f: Translator, flag: bool, entries: Entries, events: seq<Event>)
    requires Steady(f, flag, events) && Right(s => f(flag, s).0, entries)
    ensures Answers(f, flag, entries, events) == DirectAnswers(f, flag, events)
    decreases events
  {
    hide Right, Valid, Find, Stored;
    if events != [] {
      assert events[0] == events[..1][0];
      assert Steady(f, flag, events[1..]);
      match events[0]
      case Ask(input) =>
        CachedAnswers(f, flag, entries, input, s => f(flag, s).0);
        SteadyIsTransparent(f, flag, Cached(f, flag, entries, input).2, events[1..]);
      case Elsewhere(on) =>
        SteadyIsTransparent(f, on, entries, events[1..]);
    }
  }

  /** No answer depends on the flag. */
  ghost predicate FlagFree(f: Translator) {
    forall s :: Valid(s) ==> f(true, s).0 == f(false, s).0
  }

  lemma {:induction false} FlagFreeIsTransparent(f: Translator, flag: bool, shown: bool, entries: Entries,
                                                 events: seq<Event>)
    requires FlagFree(f) && Right(s => f(false, s).0, entries)
    ensures Answers(f, flag, entries, events) == DirectAnswers(f, shown, events)
    decreases events
  {
    hide Right, Valid, Find, Stored;
    if events != [] {
      match events[0]
      case Ask(input) =>
        CachedAnswers(f, flag, entries, input, s => f(false, s).0);
        var (_, a, left) := Cached(f, flag, entries, input);
        FlagFreeIsTransparent(f, a, Direct(f, shown, input).1, left, events[1..]);
      case Elsewhere(on) =>
        FlagFreeIsTransparent(f, on, on, entries, events[1..]);
    }
  }

  ghost predicate Transparent(f: Translator) {
    forall flag, events :: Answers(f, flag, NoEntries(), events) == DirectAnswers(f, flag, events)
  }

  /** A text translated under one setting answers so under the other. */
  function Stale(s: Bytes, flag: bool): seq<Event> {
    [Elsewhere(flag)] + ([Ask(Some(s))] + ([Elsewhere(!flag)] + ([Ask(Some(s))] + [])))
  }

  lemma StaleAnswers(f: Translator, s: Bytes, flag: bool)
    requires Valid(s) && f(flag, s).0.Ok?
    ensures Answers(f, flag, NoEntries(), Stale(s, flag)) == [f(flag, s).0, f(flag, s).0]
    ensures DirectAnswers(f, flag, Stale(s, flag)) == [f(flag, s).0, f(!flag, s).0]
  {
    var none, r, after := NoEntries(), f(flag, s).0, f(flag, s).1;
    var left, last := Stored(none, s, r), [Ask(Some(s))] + [];
    assert Find(none, s) == None && Find(left, s) == Some(r);
    NextElsewhere(f, flag, none, flag, [Ask(Some(s))] + ([Elsewhere(!flag)] + last));
    NextAsk(f, flag, none, Some(s), [Elsewhere(!flag)] + last);
    NextElsewhere(f, after, left, !flag, last);
    NextAsk(f, !flag, left, Some(s), []);
  }

  /** The cache is transparent over every history exactly when no answer
      depends on the flag. */
  lemma TransparentIffFlagFree(f: Translator)
    ensures Transparent(f) <==> FlagFree(f)
  {
    if FlagFree(f) {
      forall flag, events
        ensures Answers(f, flag, NoEntries(), events) == DirectAnswers(f, flag, events)
      {
        FlagFreeIsTransparent(f, flag, flag, NoEntries(), events);
      }
    } else {
      var s :| Valid(s) && f(true, s).0 != f(false, s).0;
      var flag := f(true, s).0.Ok?;
      StaleAnswers(f, s, flag);
      assert [f(flag, s).0, f(flag, s).0][1] != [f(flag, s).0, f(!flag, s).0][1];
      assert Answers(f, flag, NoEntries(), Stale(s, flag)) != DirectAnswers(f, flag, Stale(s, flag));
    }
  }

  /** A pragma answered from the cache does not set the flag: turned on, off
      and on again, it is off for the next text, cached or not. */
  lemma PragmaIsLost(f: Translator, turnOn: Bytes, turnOff: Bytes, s: Bytes)
    requires Valid(turnOn) && Valid(turnOff) && Valid(s)
    requires f(false, turnOn).0.Ok? && f(true, turnOff).0.Ok?
    requires f(false, turnOn).1 && !f(true, turnOff).1
    requires Hash(turnOn) % SIZE != Hash(turnOff) % SIZE
    requires Hash(s) % SIZE != Hash(turnOn) % SIZE && Hash(s) % SIZE != Hash(turnOff) % SIZE
    ensures var events := [Ask(Some(turnOn))] + ([Ask(Some(turnOff))] + ([Ask(Some(turnOn))] + ([Ask(Some(s))] + [])));
      && |Answers(f, false, NoEntries(), events)| == |DirectAnswers(f, false, events)| == 4
      && Answers(f, false, NoEntries(), events)[3] == f(false, s).0
      && DirectAnswers(f, false, events)[3] == f(true, s).0
  {
    hide Answers, DirectAnswers, Hash, Valid;
    var on, off, last := Ask(Some(turnOn)), Ask(Some(turnOff)), [Ask(Some(s))] + [];
    var none := NoEntries();
    var first := Stored(none, turnOn, f(false, turnOn).0);
    var second := Stored(first, turnOff, f(true, turnOff).0);
    assert Find(none, turnOn) == None && Find(first, turnOff) == None;
    assert Find(second, turnOn) == Some(f(false, turnOn).0) && Find(second, s) == None;
    NextAsk(f, false, none, Some(turnOn), [off] + ([on] + last));
    NextAsk(f, true, first, Some(turnOff), [on] + last);
    NextAsk(f, false, second, Some(turnOn), last);
    NextAsk(f, false, second, Some(s), []);
    NextAsk(f, true, second, Some(s), []);
    NoAnswers(f, f(false, s).1, Stored(second, s, f(false, s).0));
    NoAnswers(f, f(true, s).1, second);
  }
}
