/** What the shim's plan is for: SQLite's transactions with one addition.  BEGIN
    inside a transaction, which SQLite refuses, opens a nested one that COMMIT
    keeps and ROLLBACK undoes. */
module NestedTxn {
  import opened Common
  import opened PgSession

  datatype Level<C> = Point(name: string, snapshot: C) | Nested(snapshot: C)

  /** begun: the transaction was opened by BEGIN, not by a savepoint. */
  datatype Db<C> = Db(committed: C, contents: C, begun: bool, levels: seq<Level<C>>)

  predicate InTransaction<C>(d: Db<C>) {
    d.begun || d.levels != []
  }

  function Closed<C>(contents: C): Db<C> {
    Db(contents, contents, false, [])
  }

  function PointNamed<C>(name: string): Level<C> -> bool {
    (l: Level<C>) => l.Point? && Fold(l.name) == Fold(name)
  }

  predicate TopNested<C>(d: Db<C>) {
    d.levels != [] && d.levels[|d.levels| - 1].Nested?
  }

  function Pop<C>(levels: seq<Level<C>>): seq<Level<C>>
    requires levels != []
  {
    levels[..|levels| - 1]
  }

  function Do<C>(d: Db<C>, cmd: Command): Db<C> {
    match cmd
    case Begin =>
      if !InTransaction(d) then d.(begun := true)
      else d.(levels := d.levels + [Nested(d.contents)])
    case Commit =>
      if !InTransaction(d) then d
      else if TopNested(d) then d.(levels := Pop(d.levels))
      else Closed(d.contents)
    case Rollback =>
      if !InTransaction(d) then d
      else if TopNested(d) then
        d.(contents := d.levels[|d.levels| - 1].snapshot, levels := Pop(d.levels))
      else Closed(d.committed)
    case Savepoint(name) => d.(levels := d.levels + [Point(name, d.contents)])
    case Release(name) =>
      var k := LastIndex(d.levels, PointNamed(name));
      if k.None? then d
      else if k.value == 0 && !d.begun then Closed(d.contents)
      else d.(levels := d.levels[..k.value])
    case RollbackTo(name) =>
      var k := LastIndex(d.levels, PointNamed(name));
      if k.None? then d
      else d.(levels := d.levels[..k.value + 1], contents := d.levels[k.value].snapshot)
  }

  /** A refused statement changes nothing and ends nothing. */
  function Write<C>(d: Db<C>, effect: C -> C, accepted: bool): Db<C> {
    if !accepted then d
    else
      var contents := effect(d.contents);
      d.(contents := contents, committed := if InTransaction(d) then d.committed else contents)
  }
}
