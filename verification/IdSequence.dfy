/** The id sequence of a table during a guide load.  A PostgreSQL sequence is
    not transactional, and it knows nothing of an id a statement assigned
    itself; the shim raises it after such a statement. */
module IdSequence {
  import opened Common
  import opened PgSession

  /** A sequence that starts at 1 and steps by 1. */
  datatype Sequence = Sequence(last: int, called: bool)

  const NewSequence := Sequence(1, false)

  /** What the next nextval answers. */
  function Next(q: Sequence): int {
    if q.called then q.last + 1 else q.last
  }

  function Taken(q: Sequence): Sequence {
    Sequence(Next(q), true)
  }

  /** pg_sequence_last_value. */
  function LastValue(q: Sequence): Option<int> {
    if q.called then Some(q.last) else None
  }

  ghost predicate IsLargest(ids: set<int>, m: int) {
    m in ids && forall x :: x in ids ==> x <= m
  }

  ghost function Largest(ids: set<int>): (m: int)
    requires ids != {}
    ensures IsLargest(ids, m)
  {
    LargestExists(ids);
    var m :| IsLargest(ids, m);
    m
  }

  lemma LargestOfTwo(rest: set<int>, m: int, y: int)
    requires IsLargest(rest, m)
    ensures IsLargest(rest + {y}, if m < y then y else m)
  {
  }

  lemma {:induction false} LargestExists(ids: set<int>)
    requires ids != {}
    ensures exists m :: IsLargest(ids, m)
  {
    assert (forall y :: y !in ids) ==> ids == {};
    var y :| y in ids;
    var rest := ids - {y};
    if rest == {} {
      assert IsLargest(ids, y) by {
        assert ids == rest + {y};
      }
    } else {
      LargestExists(rest);
      var m :| IsLargest(rest, m);
      LargestOfTwo(rest, m, y);
      assert ids == rest + {y};
    }
  }

  /** COALESCE(max(id), 0). */
  ghost function MaxId(ids: set<int>): int {
    if ids == {} then 0 else Largest(ids)
  }

  /** setval(GREATEST(max, COALESCE(last_value, 0), 1), max > 0 OR last_value
      IS NOT NULL). */
  ghost function Raised(q: Sequence, ids: set<int>): Sequence {
    var mx, last := MaxId(ids), LastValue(q);
    Sequence(Max(Max(mx, if last.Some? then last.value else 0), 1), mx > 0 || last.Some?)
  }

  /** A sequence only nextval and the resync have touched. */
  predicate Ours(q: Sequence) {
    if q.called then q.last >= 1 else q.last == 1
  }

  /** The resync makes the next id one past the largest id present, and never
      lowers it. */
  lemma RaisedNext(q: Sequence, ids: set<int>)
    requires Ours(q)
    ensures Ours(Raised(q, ids))
    ensures Next(Raised(q, ids)) == Max(Next(q), MaxId(ids) + 1)
  {
  }

  // ----- a load ---------------------------------------------------------

  /** A connection on one table, its contents the ids present. */
  datatype Load = Load(session: Session<set<int>>, sequence: Sequence)

  datatype Op =
    | Generate(reached: bool, accepted: bool)                          // INSERT without an id
    | AssignIds(removed: set<int>, added: set<int>, accepted: bool)    // INSERT or UPDATE of ids, then the resync
    | Delete(removed: set<int>, accepted: bool)
    | Control(cmd: Command)                                            // any transaction control

  /** A statement that takes an id takes it whether or not the row stays; one
      refused before it is reached takes none. */
  ghost function Step(l: Load, op: Op): Load {
    match op
    case Generate(reached, accepted) =>
      var id := Next(l.sequence);
      var r := Run(l.session, (ids: set<int>) => ids + {id}, reached && accepted);
      Load(r.session, if reached then Taken(l.sequence) else l.sequence)
    case AssignIds(removed, added, accepted) =>
      var r := Run(l.session, (ids: set<int>) => ids - removed + added, accepted);
      Load(r.session, if r.ok then Raised(l.sequence, r.session.contents) else l.sequence)
    case Delete(removed, accepted) =>
      Load(Run(l.session, (ids: set<int>) => ids - removed, accepted).session, l.sequence)
    case Control(cmd) => l.(session := Exec(l.session, cmd).session)
  }

  ghost predicate Below(ids: set<int>, n: int) {
    forall x :: x in ids ==> x < n
  }

  /** The next id is past every id present, committed, or that any rollback
      can bring back. */
  ghost predicate Fresh(l: Load) {
    var n := Next(l.sequence);
    && Ours(l.sequence)
    && Below(l.session.contents, n) && Below(l.session.committed, n)
    && (forall i :: 0 <= i < |l.session.stack| ==> Below(l.session.stack[i].snapshot, n))
  }

  lemma BelowMax(ids: set<int>)
    ensures Below(ids, MaxId(ids) + 1)
  {
  }

  lemma ControlKeepsFresh(l: Load, cmd: Command)
    requires Fresh(l)
    ensures Fresh(Step(l, Control(cmd)))
  {
    var s, s' := l.session, Exec(l.session, cmd).session;
    forall i | 0 <= i < |s'.stack|
      ensures Below(s'.stack[i].snapshot, Next(l.sequence))
    {
      assert i < |s.stack| ==> Below(s.stack[i].snapshot, Next(l.sequence));
    }
  }

  /** Every step keeps the next id fresh and never lowers it. */
  lemma StepKeepsFresh(l: Load, op: Op)
    requires Fresh(l)
    ensures Fresh(Step(l, op))
    ensures Next(l.sequence) <= Next(Step(l, op).sequence)
  {
    match op
    case Control(cmd) => ControlKeepsFresh(l, cmd);
    case AssignIds(removed, added, accepted) =>
      var contents := Step(l, op).session.contents;
      RaisedNext(l.sequence, contents);
      BelowMax(contents);
    case _ =>
  }

  ghost function RunAll(l: Load, ops: seq<Op>): Load
    decreases ops
  {
    if ops == [] then l else RunAll(Step(l, ops[0]), ops[1..])
  }

  /** Over any run of inserts, id assignments, deletes and rollbacks, the id
      the next insert takes is larger than every id present. */
  lemma {:induction false} NextIdIsFresh(l: Load, ops: seq<Op>)
    requires Fresh(l)
    ensures Fresh(RunAll(l, ops))
    ensures Next(RunAll(l, ops).sequence) !in RunAll(l, ops).session.contents
    ensures Next(l.sequence) <= Next(RunAll(l, ops).sequence)
    decreases ops
  {
    if ops != [] {
      StepKeepsFresh(l, ops[0]);
      NextIdIsFresh(Step(l, ops[0]), ops[1..]);
    }
  }

  /** Without the resync the next id stays fresh exactly when every id the
      statement assigned is below it. */
  lemma WithoutResync(l: Load, removed: set<int>, added: set<int>)
    requires Fresh(l) && !l.session.failed
    ensures var after := Run(l.session, (ids: set<int>) => ids - removed + added, true).session;
      Fresh(Load(after, l.sequence)) <==> Below(added, Next(l.sequence))
  {
    var after := Run(l.session, (ids: set<int>) => ids - removed + added, true).session;
    assert forall x :: x in added ==> x in after.contents;
  }

  // ----- from a new table -----------------------------------------------

  const NewTable := Load(Ended({}), NewSequence)

  lemma FreshAtStart()
    ensures Fresh(NewTable) && Next(NewSequence) == 1
  {
  }

  /** Whatever is run on a new table, the next id is larger than every id
      present. */
  lemma FreshFromStart(ops: seq<Op>)
    ensures Below(RunAll(NewTable, ops).session.contents, Next(RunAll(NewTable, ops).sequence))
  {
    FreshAtStart();
    NextIdIsFresh(NewTable, ops);
  }

  /** The largest id a statement takes from the sequence or leaves behind when
      it assigned ids itself; 0 when it does neither. */
  ghost function Used(l: Load, op: Op): int {
    match op
    case Generate(reached, _) => if reached then Next(l.sequence) else 0
    case AssignIds(removed, added, accepted) =>
      var r := Run(l.session, (ids: set<int>) => ids - removed + added, accepted);
      if r.ok then MaxId(r.session.contents) else 0
    case _ => 0
  }

  /** The largest id used over a run. */
  ghost function Peak(l: Load, ops: seq<Op>): (m: int)
    ensures m >= 0
    decreases ops
  {
    if ops == [] then 0 else Max(Used(l, ops[0]), Peak(Step(l, ops[0]), ops[1..]))
  }

  lemma StepPeak(l: Load, op: Op)
    requires Ours(l.sequence)
    ensures Ours(Step(l, op).sequence)
    ensures Next(Step(l, op).sequence) == Max(Next(l.sequence), Used(l, op) + 1)
  {
    if op.AssignIds? {
      RaisedNext(l.sequence, Step(l, op).session.contents);
    }
  }

  lemma {:induction false} RunPeak(l: Load, ops: seq<Op>)
    requires Ours(l.sequence)
    ensures Next(RunAll(l, ops).sequence) == Max(Next(l.sequence), Peak(l, ops) + 1)
    decreases ops
  {
    hide Step, Used;
    if ops != [] {
      StepPeak(l, ops[0]);
      RunPeak(Step(l, ops[0]), ops[1..]);
    }
  }

  /** SQLite gives the next row the id past the largest present.  After any run
      on a new table PostgreSQL gives that id too, exactly when no id larger
      than those present was ever used. */
  lemma NextIsSqlites(ops: seq<Op>)
    ensures var l := RunAll(NewTable, ops);
      Next(l.sequence) == MaxId(l.session.contents) + 1 <==> Peak(NewTable, ops) <= MaxId(l.session.contents)
  {
    var l := RunAll(NewTable, ops);
    FreshFromStart(ops);
    RunPeak(NewTable, ops);
    if l.session.contents != {} {
      assert MaxId(l.session.contents) in l.session.contents;
    }
  }
}
