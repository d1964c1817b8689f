/** Transactions as SQLite runs them ("Transaction" and "Savepoints",
    sqlite.org).  A command SQLite refuses changes nothing. */
module SqliteTxn {
  import opened Common
  import opened PgSession

  datatype Point<C> = Point(name: string, snapshot: C)

  /** begun: the transaction was opened by BEGIN, not by a savepoint. */
  datatype Db<C> = Db(committed: C, contents: C, begun: bool, points: seq<Point<C>>)

  predicate InTransaction<C>(d: Db<C>) {
    d.begun || d.points != []
  }

  function Closed<C>(contents: C): Db<C> {
    Db(contents, contents, false, [])
  }

  function PointNamed<C>(name: string): Point<C> -> bool {
    (p: Point<C>) => Fold(p.name) == Fold(name)
  }

  /** BEGIN within a transaction, COMMIT and ROLLBACK outside one, and a
      savepoint name that is not set are refused. */
  function Do<C>(d: Db<C>, cmd: Command): Db<C> {
    match cmd
    case Begin => if InTransaction(d) then d else d.(begun := true)
    case Commit => if InTransaction(d) then Closed(d.contents) else d
    case Rollback => if InTransaction(d) then Closed(d.committed) else d
    case Savepoint(name) => d.(points := d.points + [Point(name, d.contents)])
    case Release(name) =>
      var k := LastIndex(d.points, PointNamed(name));
      if k.None? then d
      else if k.value == 0 && !d.begun then Closed(d.contents)
      else d.(points := d.points[..k.value])
    case RollbackTo(name) =>
      var k := LastIndex(d.points, PointNamed(name));
      if k.None? then d
      else d.(points := d.points[..k.value + 1], contents := d.points[k.value].snapshot)
  }

  /** A refused statement changes nothing and ends nothing. */
  function Write<C>(d: Db<C>, effect: C -> C, accepted: bool): Db<C> {
    if !accepted then d
    else
      var contents := effect(d.contents);
      d.(contents := contents, committed := if InTransaction(d) then d.committed else contents)
  }
}
