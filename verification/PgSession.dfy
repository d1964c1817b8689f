/** Transactions as a PostgreSQL session runs them: a failed transaction
    refuses everything but a rollback, and savepoints are a stack of named
    snapshots. */
module PgSession {
  import opened Common

  /** The last index whose element satisfies p. */
  function LastIndex<T>(s: seq<T>, p: T -> bool): (r: Option<nat>)
    ensures r.Some? ==> r.value < |s| && p(s[r.value]) && forall j :: r.value < j < |s| ==> !p(s[j])
    ensures r.None? ==> forall j :: 0 <= j < |s| ==> !p(s[j])
  {
    if s == [] then None
    else if p(s[|s| - 1]) then Some(|s| - 1)
    else LastIndex(s[..|s| - 1], p)
  }

  /** The last index is the only one with nothing satisfying p after it. */
  lemma LastIndexIs<T>(s: seq<T>, p: T -> bool, k: nat)
    requires k < |s| && p(s[k]) && forall j :: k < j < |s| ==> !p(s[j])
    ensures LastIndex(s, p) == Some(k)
  {
    assert LastIndex(s, p).Some?;
  }

  /** A sequence with one element more in front, which does not satisfy q. */
  lemma LastIndexBehind<A, B>(a: seq<A>, p: A -> bool, b: seq<B>, q: B -> bool)
    requires |b| == |a| + 1 && !q(b[0]) && forall i :: 0 <= i < |a| ==> (p(a[i]) <==> q(b[i + 1]))
    ensures LastIndex(b, q) == match LastIndex(a, p) case None => None case Some(k) => Some(k + 1)
  {
    assert forall j :: 1 <= j < |b| ==> (q(b[j]) <==> p(a[j - 1]));
    if LastIndex(a, p).Some? {
      LastIndexIs(b, q, LastIndex(a, p).value + 1);
    }
  }

  /** A sequence that satisfies q where the other satisfies p, and above the
      lowest element nowhere else. */
  lemma LastIndexAbove<A, B>(a: seq<A>, p: A -> bool, b: seq<B>, q: B -> bool)
    requires |a| == |b| && LastIndex(a, p).Some?
    requires forall i :: 0 <= i < |a| ==> (p(a[i]) ==> q(b[i])) && (i > 0 && q(b[i]) ==> p(a[i]))
    ensures LastIndex(b, q) == LastIndex(a, p)
  {
    var k := LastIndex(a, p).value;
    assert forall j :: k < j < |b| ==> !p(a[j]) && !q(b[j]);
    LastIndexIs(b, q, k);
  }

  function Width(c: char): nat {
    if c as int < 0x80 then 1 else if c as int < 0x800 then 2 else if c as int < 0x10000 then 3 else 4
  }

  /** As many whole characters as fit in so many bytes of UTF-8. */
  function Clip(name: string, bytes: nat): string {
    if name == "" || Width(name[0]) > bytes then "" else [name[0]] + Clip(name[1..], bytes - Width(name[0]))
  }

  /** The name PostgreSQL keeps: folded, and cut at 63 bytes. */
  function PgName(name: string): string {
    Clip(Fold(name), 63)
  }

  datatype Save<C> = Save(name: string, snapshot: C)

  datatype Session<C> = Session(committed: C, contents: C, open: bool, failed: bool, stack: seq<Save<C>>)

  datatype Command =
    | Begin
    | Commit
    | Rollback
    | Savepoint(name: string)
    | Release(name: string)
    | RollbackTo(name: string)

  /** The session after a statement, and whether PostgreSQL accepted it. */
  datatype Reply<C> = Reply(session: Session<C>, ok: bool)

  function Refused<C>(s: Session<C>): Reply<C> {
    Reply(s.(failed := s.open), false)
  }

  function Ended<C>(contents: C): Session<C> {
    Session(contents, contents, false, false, [])
  }

  function Named<C>(name: string): Save<C> -> bool {
    (save: Save<C>) => PgName(save.name) == PgName(name)
  }

  function Exec<C>(s: Session<C>, cmd: Command): Reply<C> {
    match cmd
    case Begin => if s.failed then Refused(s) else Reply(s.(open := true), true)
    case Commit => Reply(Ended(if s.failed then s.committed else s.contents), true)
    case Rollback => Reply(Ended(s.committed), true)
    case Savepoint(name) =>
      if !s.open || s.failed then Refused(s)
      else Reply(s.(stack := s.stack + [Save(name, s.contents)]), true)
    case Release(name) =>
      var k := LastIndex(s.stack, Named(name));
      if !s.open || s.failed || k.None? then Refused(s)
      else Reply(s.(stack := s.stack[..k.value]), true)
    case RollbackTo(name) =>
      var k := LastIndex(s.stack, Named(name));
      if !s.open || k.None? then Refused(s)
      else Reply(s.(stack := s.stack[..k.value + 1], contents := s.stack[k.value].snapshot, failed := false), true)
  }

  /** A statement that is no transaction control: what it makes of the
      contents when PostgreSQL accepts it. */
  function Run<C>(s: Session<C>, effect: C -> C, accepted: bool): Reply<C> {
    if s.failed || !accepted then Refused(s)
    else
      var contents := effect(s.contents);
      Reply(s.(contents := contents, committed := if s.open then s.committed else contents), true)
  }

  /** Outside a transaction every statement is its own. */
  ghost predicate Sane<C>(s: Session<C>) {
    !s.open ==> !s.failed && s.stack == [] && s.contents == s.committed
  }

  /** A savepoint just set is the one its name means. */
  lemma TopSavepoint<C>(stack: seq<Save<C>>, save: Save<C>)
    ensures LastIndex(stack + [save], Named(save.name)) == Some(|stack|)
  {
    LastIndexIs(stack + [save], Named(save.name), |stack|);
  }
}
