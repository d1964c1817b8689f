/** Writes of a guide load.  A savepoint brackets each write and another the
    resync of an id sequence, to keep a refusal from spoiling the transaction;
    and whole runs of writes and transaction control, against SQLite. */
module GuideLoad {
  import opened Common
  import opened PgSession
  import opened NestedTxn
  import opened TxnPlan
  import S = SqliteTxn

  const STATEMENT_SAVEPOINT := "plex_pg_stmt"
  const RESYNC_SAVEPOINT := "plex_pg_resync"

  // ----- the brackets as functions of the session -----------------------

  /** Leaves a savepoint: released, or rolled back to first. */
  function Leave<C>(s: Session<C>, name: string, succeeded: bool): Session<C> {
    var back := if succeeded then s else Exec(s, RollbackTo(name)).session;
    Exec(back, Release(name)).session
  }

  function Itself<C>(c: C): C {
    c
  }

  /** The resync statement, which changes no table. */
  function Resynced<C>(s: Session<C>, inTransaction: bool, accepted: bool): Session<C> {
    var begun := if inTransaction then Exec(s, Savepoint(RESYNC_SAVEPOINT)) else Reply(s, false);
    var r := Run(begun.session, Itself<C>, accepted);
    if begun.ok then Leave(r.session, RESYNC_SAVEPOINT, r.ok) else r.session
  }

  /** A write: its effect when PostgreSQL accepts it, and the resync's fate
      when the statement assigned an id itself. */
  datatype Write<!C> = Write(effect: C -> C, accepted: bool, resync: Option<bool>)

  function Written<C>(s: Session<C>, inTransaction: bool, savepoints: bool, write: Write<C>): Session<C> {
    var begun := if savepoints && inTransaction then Exec(s, Savepoint(STATEMENT_SAVEPOINT)) else Reply(s, false);
    var r := Run(begun.session, write.effect, write.accepted);
    var s' := if begun.ok then Leave(r.session, STATEMENT_SAVEPOINT, r.ok) else r.session;
    if r.ok && write.resync.Some? then Resynced(s', inTransaction, write.resync.value) else s'
  }

  /** What the resync makes of the sequence: it is raised to the contents it
      sees, when PostgreSQL accepts it. */
  function ResyncedSequence<C, Q>(s: Session<C>, q: Q, inTransaction: bool, accepted: bool, raise: (Q, C) -> Q): Q {
    var begun := if inTransaction then Exec(s, Savepoint(RESYNC_SAVEPOINT)) else Reply(s, false);
    var r := Run(begun.session, Itself<C>, accepted);
    if r.ok then raise(q, r.session.contents) else q
  }

  /** The sequence after a write.  A sequence is outside every transaction: what
      the statement draws from it stays drawn, whatever becomes of it. */
  function WrittenSequence<C, Q>(s: Session<C>, q: Q, inTransaction: bool, savepoints: bool, write: Write<C>,
                                 draw: Q -> Q, raise: (Q, C) -> Q): Q
  {
    var begun := if savepoints && inTransaction then Exec(s, Savepoint(STATEMENT_SAVEPOINT)) else Reply(s, false);
    var drawn := if begun.session.failed then q else draw(q);
    var r := Run(begun.session, write.effect, write.accepted);
    var s' := if begun.ok then Leave(r.session, STATEMENT_SAVEPOINT, r.ok) else r.session;
    if r.ok && write.resync.Some? then ResyncedSequence(s', drawn, inTransaction, write.resync.value, raise) else drawn
  }

  // ----- the commands on a connection -----------------------------------

  /** A connection and the id sequence of the table a load fills. */
  class Connection<C, Q> {
    var session: Session<C>
    var sequence: Q
    const raise: (Q, C) -> Q

    constructor (contents: C, sequence: Q, raise: (Q, C) -> Q)
      ensures session == Ended(contents) && this.sequence == sequence && this.raise == raise
    {
      this.session, this.sequence, this.raise := Ended(contents), sequence, raise;
    }

    method ExecOk(cmd: Command) returns (ok: bool)
      modifies this`session
      ensures Reply(session, ok) == Exec(old(session), cmd)
    {
      var r := Exec(session, cmd);
      session, ok := r.session, r.ok;
    }

    method Statement(effect: C -> C, accepted: bool) returns (ok: bool)
      modifies this`session
      ensures Reply(session, ok) == Run(old(session), effect, accepted)
    {
      var r := Run(session, effect, accepted);
      session, ok := r.session, r.ok;
    }

    method EndStatementSavepoint(succeeded: bool)
      modifies this`session
      ensures session == Leave(old(session), STATEMENT_SAVEPOINT, succeeded)
    {
      if !succeeded {
        var _ := ExecOk(RollbackTo(STATEMENT_SAVEPOINT));
      }
      var _ := ExecOk(Release(STATEMENT_SAVEPOINT));
    }

    method ResyncSequence(inTransaction: bool, accepted: bool)
      modifies this
      ensures session == Resynced(old(session), inTransaction, accepted)
      ensures sequence == ResyncedSequence(old(session), old(sequence), inTransaction, accepted, raise)
    {
      var guarded := false;
      if inTransaction {
        guarded := ExecOk(Savepoint(RESYNC_SAVEPOINT));
      }
      var ok := Statement(Itself<C>, accepted);
      if ok {
        sequence := raise(sequence, session.contents);
      }
      if guarded {
        if !ok {
          var _ := ExecOk(RollbackTo(RESYNC_SAVEPOINT));
        }
        var _ := ExecOk(Release(RESYNC_SAVEPOINT));
      }
    }

    /** A load handle's write, as the step path runs it. */
    method ExecuteWrite(inTransaction: bool, savepoints: bool, write: Write<C>, draw: Q -> Q)
      modifies this
      ensures session == Written(old(session), inTransaction, savepoints, write)
      ensures sequence == WrittenSequence(old(session), old(sequence), inTransaction, savepoints, write, draw, raise)
    {
      var savepoint := false;
      if savepoints && inTransaction {
        savepoint := ExecOk(Savepoint(STATEMENT_SAVEPOINT));
      }
      if !session.failed {
        sequence := draw(sequence);
      }
      var ok := Statement(write.effect, write.accepted);
      if savepoint {
        EndStatementSavepoint(ok);
      }
      if ok && write.resync.Some? {
        ResyncSequence(inTransaction, write.resync.value);
      }
    }
  }

  // ----- what a bracket leaves ------------------------------------------

  /** A statement between a savepoint and its end leaves the stack as it was
      and the contents changed exactly when it was accepted, even under a
      savepoint of the same name. */
  lemma BracketLeaves<C>(s: Session<C>, name: string, effect: C -> C, accepted: bool)
    requires s.open && !s.failed
    ensures var b := Exec(s, Savepoint(name));
      var r := Run(b.session, effect, accepted);
      && b.ok && r.ok == accepted
      && Leave(r.session, name, r.ok) == if accepted then s.(contents := effect(s.contents)) else s
  {
    var save := Save(name, s.contents);
    TopSavepoint(s.stack, save);
    assert (s.stack + [save])[..|s.stack|] == s.stack;
    assert (s.stack + [save])[..|s.stack| + 1] == s.stack + [save];
  }

  lemma ResyncLeaves<C>(s: Session<C>, inTransaction: bool, accepted: bool)
    requires !s.failed && s.open == inTransaction && Sane(s)
    ensures Resynced(s, inTransaction, accepted) == s
  {
    if inTransaction {
      BracketLeaves(s, RESYNC_SAVEPOINT, Itself<C>, accepted);
    }
  }

  /** A bracketed write keeps the transaction usable and its savepoints as
      they were, and applies exactly an accepted write; so does one outside a
      transaction. */
  lemma WriteLeaves<C>(s: Session<C>, write: Write<C>)
    requires !s.failed && Sane(s)
    ensures var after := Effect(write, s.contents);
      Written(s, s.open, true, write) ==
      s.(contents := after, committed := if s.open then s.committed else after)
  {
    var after := Effect(write, s.contents);
    var s' := s.(contents := after, committed := if s.open then s.committed else after);
    if s.open {
      BracketLeaves(s, STATEMENT_SAVEPOINT, write.effect, write.accepted);
    }
    if write.accepted && write.resync.Some? {
      ResyncLeaves(s', s.open, write.resync.value);
    }
  }

  function Effect<C>(write: Write<C>, contents: C): C {
    if write.accepted then write.effect(contents) else contents
  }

  // ----- whole runs -----------------------------------------------------

  datatype Op<!C> = Control(cmd: Command) | Change(write: Write<C>)

  predicate NameIn(cmd: Command, names: set<string>) {
    cmd.Savepoint? || cmd.Release? || cmd.RollbackTo? ==> cmd.name in names
  }

  predicate UsesNames<C>(ops: seq<Op<C>>, names: set<string>) {
    forall i :: 0 <= i < |ops| && ops[i].Control? ==> NameIn(ops[i].cmd, names)
  }

  function SqliteStep<C>(d: S.Db<C>, op: Op<C>): S.Db<C> {
    match op
    case Control(cmd) => S.Do(d, cmd)
    case Change(write) => S.Write(d, write.effect, write.accepted)
  }

  /** The step with BEGIN nesting, as the plan intends. */
  function IntendedStep<C>(d: Db<C>, op: Op<C>): Db<C> {
    match op
    case Control(cmd) => Do(d, cmd)
    case Change(write) => NestedTxn.Write(d, write.effect, write.accepted)
  }

  function ShimStep<C>(w: Shim<C>, op: Op<C>, savepoints: bool): Shim<C> {
    match op
    case Control(cmd) => RunCommand(w, cmd)
    case Change(write) => w.(session := Written(w.session, w.frames != [], savepoints, write))
  }

  function SqliteRun<C>(d: S.Db<C>, ops: seq<Op<C>>): S.Db<C>
    decreases ops
  {
    if ops == [] then d else SqliteRun(SqliteStep(d, ops[0]), ops[1..])
  }

  function IntendedRun<C>(d: Db<C>, ops: seq<Op<C>>): Db<C>
    decreases ops
  {
    if ops == [] then d else IntendedRun(IntendedStep(d, ops[0]), ops[1..])
  }

  function ShimRun<C>(w: Shim<C>, ops: seq<Op<C>>, savepoints: bool): Shim<C>
    decreases ops
  {
    if ops == [] then w else ShimRun(ShimStep(w, ops[0], savepoints), ops[1..], savepoints)
  }

  function Connected<C>(c: C): Shim<C> {
    Shim([], Ended(c))
  }

  // ----- the plan does what it intends ----------------------------------

  lemma ControlSame<C>(names: set<string>, d: Db<C>, w: Shim<C>, cmd: Command)
    requires Same(names, d, w) && PgTellsApart(names) && NestedApart(names, d) && NameIn(cmd, names)
    ensures Same(names, Do(d, cmd), RunCommand(w, cmd))
  {
    hide Same, PgTellsApart, NestedApart, Do, RunCommand;
    match cmd
    case Begin => BeginSame(names, d, w);
    case Commit => CommitSame(names, d, w);
    case Rollback => RollbackSame(names, d, w);
    case Savepoint(name) => SavepointSame(names, d, w, name);
    case Release(name) => ReleaseSame(names, d, w, name);
    case RollbackTo(name) => RollbackToSame(names, d, w, name);
  }

  lemma ChangeSame<C>(names: set<string>, d: Db<C>, w: Shim<C>, write: Write<C>)
    requires Same(names, d, w)
    ensures Same(names, IntendedStep(d, Change(write)), ShimStep(w, Change(write), true))
  {
    WriteLeaves(w.session, write);
  }

  lemma NamesApart<C>(names: set<string>, d: Db<C>)
    requires NotNested(names)
    ensures NestedApart(names, d)
  {
  }

  /** Over every run of transaction control, BEGIN nested or not, and of writes
      accepted or refused in any pattern, the session shows what the plan
      intends. */
  lemma {:induction false} RunIsIntended<C>(names: set<string>, d: Db<C>, w: Shim<C>, ops: seq<Op<C>>)
    requires Same(names, d, w) && Distinguishable(names) && UsesNames(ops, names)
    ensures Same(names, IntendedRun(d, ops), ShimRun(w, ops, true))
    decreases ops
  {
    hide Same, PgTellsApart, NotNested, NestedApart;
    if ops != [] {
      match ops[0] {
        case Control(cmd) =>
          NamesApart(names, d);
          ControlSame(names, d, w, cmd);
        case Change(write) => ChangeSame(names, d, w, write);
      }
      RunIsIntended(names, IntendedStep(d, ops[0]), ShimStep(w, ops[0], true), ops[1..]);
    }
  }

  // ----- and what SQLite does, short of nesting -------------------------

  function Lifted<C>(points: seq<S.Point<C>>): (r: seq<Level<C>>)
    ensures |r| == |points|
    ensures forall i :: 0 <= i < |points| ==> r[i] == Point(points[i].name, points[i].snapshot)
  {
    seq(|points|, i requires 0 <= i < |points| => Point(points[i].name, points[i].snapshot))
  }

  /** SQLite's database as one in which nothing is nested. */
  function Lift<C>(d: S.Db<C>): Db<C> {
    Db(d.committed, d.contents, d.begun, Lifted(d.points))
  }

  /** The shim stands where SQLite stands: same contents, same committed
      contents, same transaction open and usable, same savepoints. */
  ghost predicate Stands<C>(names: set<string>, d: S.Db<C>, w: Shim<C>) {
    Same(names, Lift(d), w)
  }

  lemma LiftFind<C>(points: seq<S.Point<C>>, name: string)
    ensures LastIndex(Lifted(points), PointNamed(name)) == LastIndex(points, S.PointNamed(name))
  {
    var k := LastIndex(points, S.PointNamed(name));
    if k.Some? {
      LastIndexIs(Lifted(points), PointNamed(name), k.value);
    } else {
      assert forall i :: 0 <= i < |points| ==> !S.PointNamed(name)(points[i]);
    }
  }

  predicate BeginsInside<C>(d: S.Db<C>, op: Op<C>) {
    op.Control? && op.cmd.Begin? && S.InTransaction(d)
  }

  lemma LiftRelease<C>(d: S.Db<C>, name: string)
    ensures Lift(S.Do(d, Release(name))) == Do(Lift(d), Release(name))
  {
    LiftFind(d.points, name);
    hide LastIndex;
  }

  lemma LiftRollbackTo<C>(d: S.Db<C>, name: string)
    ensures Lift(S.Do(d, RollbackTo(name))) == Do(Lift(d), RollbackTo(name))
  {
    LiftFind(d.points, name);
    hide LastIndex;
  }

  lemma LiftStep<C>(d: S.Db<C>, op: Op<C>)
    requires !BeginsInside(d, op)
    ensures Lift(SqliteStep(d, op)) == IntendedStep(Lift(d), op)
  {
    hide LastIndex;
    if op.Control? && op.cmd.Release? {
      LiftRelease(d, op.cmd.name);
    } else if op.Control? && op.cmd.RollbackTo? {
      LiftRollbackTo(d, op.cmd.name);
    }
  }

  lemma LiftApart<C>(names: set<string>, d: S.Db<C>)
    ensures NestedApart(names, Lift(d))
  {
  }

  /** A BEGIN that SQLite refuses opens a level on the shim's side, and the
      next ROLLBACK or COMMIT shows it: SQLite's transaction is over, the
      shim's is not. */
  lemma NestedBeginParts<C>(names: set<string>, d: S.Db<C>, w: Shim<C>)
    requires Stands(names, d, w) && S.InTransaction(d)
    ensures !Stands(names, S.Do(d, Begin), RunCommand(w, Begin))
    ensures !S.InTransaction(S.Do(S.Do(d, Begin), Rollback))
            && RunCommand(RunCommand(w, Begin), Rollback).session.open
    ensures !S.InTransaction(S.Do(S.Do(d, Begin), Commit))
            && RunCommand(RunCommand(w, Begin), Commit).session.open
  {
    BeginSame(names, Lift(d), w);
    var deep, below := Do(Lift(d), Begin), RunCommand(w, Begin);
    assert TopNested(deep) && |deep.levels| == |d.points| + 1;
    assert InTransaction(Do(deep, Rollback)) && InTransaction(Do(deep, Commit));
    RollbackSame(names, deep, below);
    CommitSame(names, deep, below);
  }

  /** What an operation may be for the shim to follow: not a BEGIN inside a
      transaction, and without the statement savepoints not a write refused
      inside one. */
  predicate Allowed<C>(d: S.Db<C>, op: Op<C>, savepoints: bool) {
    match op
    case Control(cmd) => !BeginsInside(d, op)
    case Change(write) => savepoints || write.accepted || !S.InTransaction(d)
  }

  predicate AllAllowed<C>(d: S.Db<C>, ops: seq<Op<C>>, savepoints: bool)
    decreases ops
  {
    ops == [] || (Allowed(d, ops[0], savepoints) && AllAllowed(SqliteStep(d, ops[0]), ops[1..], savepoints))
  }

  /** The shim stands where SQLite stands at every point of a run. */
  ghost predicate Follows<C>(names: set<string>, d: S.Db<C>, w: Shim<C>, ops: seq<Op<C>>, savepoints: bool)
    decreases ops
  {
    && Stands(names, d, w)
    && (ops != [] ==>
          Follows(names, SqliteStep(d, ops[0]), ShimStep(w, ops[0], savepoints), ops[1..], savepoints))
  }

  /** Unbracketed, a write keeps to the intended nesting exactly when it is
      accepted or runs outside a transaction. */
  lemma UnbracketedWrite<C>(names: set<string>, d: Db<C>, w: Shim<C>, write: Write<C>)
    requires Same(names, d, w)
    ensures Same(names, IntendedStep(d, Change(write)), ShimStep(w, Change(write), false))
            <==> write.accepted || !InTransaction(d)
  {
    var s := w.session;
    if write.accepted {
      var after := write.effect(s.contents);
      var s' := s.(contents := after, committed := if s.open then s.committed else after);
      if write.resync.Some? {
        ResyncLeaves(s', s.open, write.resync.value);
      }
    }
  }

  lemma StepFollows<C>(names: set<string>, d: S.Db<C>, w: Shim<C>, op: Op<C>, savepoints: bool)
    requires Stands(names, d, w) && PgTellsApart(names) && (op.Control? ==> NameIn(op.cmd, names))
    ensures Stands(names, SqliteStep(d, op), ShimStep(w, op, savepoints)) <==> Allowed(d, op, savepoints)
  {
    if BeginsInside(d, op) {
      NestedBeginParts(names, d, w);
    } else {
      LiftStep(d, op);
      hide Same, PgTellsApart, NestedApart;
      match op
      case Control(cmd) =>
        LiftApart(names, d);
        ControlSame(names, Lift(d), w, cmd);
      case Change(write) =>
        if savepoints {
          ChangeSame(names, Lift(d), w, write);
        } else {
          UnbracketedWrite(names, Lift(d), w, write);
        }
    }
  }

  lemma {:induction false} RunFollows<C>(names: set<string>, d: S.Db<C>, w: Shim<C>, ops: seq<Op<C>>, savepoints: bool)
    requires Stands(names, d, w) && PgTellsApart(names) && UsesNames(ops, names)
    ensures Follows(names, d, w, ops, savepoints) <==> AllAllowed(d, ops, savepoints)
    decreases ops
  {
    hide Stands, PgTellsApart, Allowed;
    if ops != [] {
      StepFollows(names, d, w, ops[0], savepoints);
      if Allowed(d, ops[0], savepoints) {
        RunFollows(names, SqliteStep(d, ops[0]), ShimStep(w, ops[0], savepoints), ops[1..], savepoints);
      }
    }
  }

  predicate NoneBeginsInside<C>(d: S.Db<C>, ops: seq<Op<C>>)
    decreases ops
  {
    ops == [] || (!BeginsInside(d, ops[0]) && NoneBeginsInside(SqliteStep(d, ops[0]), ops[1..]))
  }

  /** No write of a run is refused inside a transaction. */
  predicate NoneRefused<C>(d: S.Db<C>, ops: seq<Op<C>>)
    decreases ops
  {
    ops == [] ||
    ((ops[0].Change? ==> ops[0].write.accepted || !S.InTransaction(d))
     && NoneRefused(SqliteStep(d, ops[0]), ops[1..]))
  }

  lemma {:induction false} AllAllowedIs<C>(d: S.Db<C>, ops: seq<Op<C>>, savepoints: bool)
    ensures AllAllowed(d, ops, savepoints) <==> NoneBeginsInside(d, ops) && (savepoints || NoneRefused(d, ops))
    decreases ops
  {
    hide S.InTransaction;
    if ops != [] {
      AllAllowedIs(SqliteStep(d, ops[0]), ops[1..], savepoints);
    }
  }

  /** Over every run of transaction control and of writes accepted or refused
      in any pattern, the shim follows SQLite exactly when no BEGIN is issued
      inside a transaction. */
  lemma RunIsSqlites<C>(names: set<string>, d: S.Db<C>, w: Shim<C>, ops: seq<Op<C>>)
    requires Stands(names, d, w) && PgTellsApart(names) && UsesNames(ops, names)
    ensures Follows(names, d, w, ops, true) <==> NoneBeginsInside(d, ops)
  {
    RunFollows(names, d, w, ops, true);
    AllAllowedIs(d, ops, true);
  }

  /** With the statement savepoints off, it does exactly when moreover no write
      is refused inside one. */
  lemma UnbracketedRun<C>(names: set<string>, d: S.Db<C>, w: Shim<C>, ops: seq<Op<C>>)
    requires Stands(names, d, w) && PgTellsApart(names) && UsesNames(ops, names)
    ensures Follows(names, d, w, ops, false) <==> NoneBeginsInside(d, ops) && NoneRefused(d, ops)
  {
    RunFollows(names, d, w, ops, false);
    AllAllowedIs(d, ops, false);
  }

  /** What is lost then: after a refused write PostgreSQL's COMMIT gives up
      the whole transaction, where SQLite keeps the accepted writes. */
  lemma CommitAfterRefusal<C>(s: Session<C>, write: Write<C>)
    requires s.open && !s.failed && !write.accepted
    ensures Exec(Written(s, true, false, write), Commit).session == Ended(s.committed)
    ensures Exec(Written(s, true, true, write), Commit).session == Ended(s.contents)
  {
    BracketLeaves(s, STATEMENT_SAVEPOINT, write.effect, false);
  }

  // ----- from a fresh connection ----------------------------------------

  /** What can be seen from outside: the rows, the rows committed, and whether
      a transaction is open. */
  ghost predicate Shows<C>(d: S.Db<C>, w: Shim<C>) {
    d.contents == w.session.contents && d.committed == w.session.committed
    && w.session.open == S.InTransaction(d)
  }

  lemma StartStands<C>(names: set<string>, c: C)
    ensures Stands(names, S.Closed(c), Connected(c))
  {
  }

  lemma {:induction false} FollowsToTheEnd<C>(names: set<string>, d: S.Db<C>, w: Shim<C>, ops: seq<Op<C>>, savepoints: bool)
    requires Follows(names, d, w, ops, savepoints)
    ensures Stands(names, SqliteRun(d, ops), ShimRun(w, ops, savepoints))
    decreases ops
  {
    hide Stands;
    if ops != [] {
      FollowsToTheEnd(names, SqliteStep(d, ops[0]), ShimStep(w, ops[0], savepoints), ops[1..], savepoints);
    }
  }

  /** From a fresh connection, every run without a BEGIN inside a transaction
      ends with SQLite's rows, committed rows and open transaction. */
  lemma RunFromStart<C>(names: set<string>, c: C, ops: seq<Op<C>>)
    requires PgTellsApart(names) && UsesNames(ops, names) && NoneBeginsInside(S.Closed(c), ops)
    ensures Shows(SqliteRun(S.Closed(c), ops), ShimRun(Connected(c), ops, true))
  {
    StartStands(names, c);
    RunIsSqlites(names, S.Closed(c), Connected(c), ops);
    FollowsToTheEnd(names, S.Closed(c), Connected(c), ops, true);
  }

  /** BEGIN, BEGIN, ROLLBACK. */
  lemma NestedBeginShows<C>(c: C)
    ensures var run := [Control(Begin)] + ([Control(Begin)] + [Control(Rollback)]);
      && !S.InTransaction(SqliteRun(S.Closed(c), run))
      && ShimRun(Connected(c), run, true).session.open
  {
    StartStands({}, c);
    assert PgTellsApart({});
    var begin: Op<C>, rollback: Op<C> := Control(Begin), Control(Rollback);
    StepFollows({}, S.Closed(c), Connected(c), begin, true);
    NestedBeginParts({}, S.Do(S.Closed(c), Begin), RunCommand(Connected(c), Begin));
    SplitSqlite(S.Closed(c), [begin], [begin] + [rollback]);
    SplitSqlite(S.Do(S.Closed(c), Begin), [begin], [rollback]);
    SplitShim(Connected(c), [begin], [begin] + [rollback]);
    SplitShim(RunCommand(Connected(c), Begin), [begin], [rollback]);
  }

  lemma {:induction false} SplitSqlite<C>(d: S.Db<C>, xs: seq<Op<C>>, ys: seq<Op<C>>)
    ensures SqliteRun(d, xs + ys) == SqliteRun(SqliteRun(d, xs), ys)
    decreases xs
  {
    if xs == [] {
      assert xs + ys == ys;
    } else {
      assert (xs + ys)[1..] == xs[1..] + ys;
      SplitSqlite(SqliteStep(d, xs[0]), xs[1..], ys);
    }
  }

  lemma {:induction false} SplitIntended<C>(d: Db<C>, xs: seq<Op<C>>, ys: seq<Op<C>>)
    ensures IntendedRun(d, xs + ys) == IntendedRun(IntendedRun(d, xs), ys)
    decreases xs
  {
    if xs == [] {
      assert xs + ys == ys;
    } else {
      assert (xs + ys)[1..] == xs[1..] + ys;
      SplitIntended(IntendedStep(d, xs[0]), xs[1..], ys);
    }
  }

  lemma {:induction false} SplitShim<C>(w: Shim<C>, xs: seq<Op<C>>, ys: seq<Op<C>>)
    ensures ShimRun(w, xs + ys, true) == ShimRun(ShimRun(w, xs, true), ys, true)
    decreases xs
  {
    if xs == [] {
      assert xs + ys == ys;
    } else {
      assert (xs + ys)[1..] == xs[1..] + ys;
      SplitShim(ShimStep(w, xs[0], true), xs[1..], ys);
    }
  }

  // ----- the names this needs -------------------------------------------

  /** SAVEPOINT a, RELEASE b, where a and b are one name to both servers: SQLite
      commits, the shim leaves the transaction open. */
  lemma CaseMatters<C>(c: C, a: string, b: string)
    requires a != b && Fold(a) == Fold(b)
    ensures var run := [Control(Savepoint(a)), Control(Release(b))];
      && !S.InTransaction(SqliteRun(S.Closed(c), run))
      && NoneBeginsInside(S.Closed(c), run)
      && !InTransaction(IntendedRun(Closed(c), run))
      && ShimRun(Connected(c), run, true).session.open
  {
    var run: seq<Op<C>> := [Control(Savepoint(a)), Control(Release(b))];
    assert run[1..] == [Control(Release(b))] && run[1..][1..] == [];
    var d, w := S.Do(S.Closed(c), Savepoint(a)), RunCommand(Connected(c), Savepoint(a));
    Exec2(Ended(c), Begin, Savepoint(a));
    assert d.points == [S.Point(a, c)];
    LastIndexIs(d.points, S.PointNamed(b), 0);
    assert S.Do(d, Release(b)) == S.Closed(c);
    assert SqliteRun(d, run[1..]) == S.Closed(c);
    var n := Do(Closed(c), Savepoint(a));
    assert n.levels == [Point(a, c)];
    LastIndexIs(n.levels, PointNamed(b), 0);
    assert IntendedRun(n, run[1..]) == Closed(c);
    assert w.frames == [Outer(false), PointFrame(a)];
    assert LastIndex(w.frames, FrameNamed(b)).None?;
    assert RunCommand(w, Release(b)) == w;
    assert ShimRun(w, run[1..], true) == w;
  }

  /** Two names to SQLite and one to PostgreSQL: going back to the first goes
      back to the second, and keeps what was written in between. */
  function LongRun(a: string, b: string): seq<Op<int>> {
    [Control(Savepoint(a))] + ([Change(Raise())] + ([Control(Savepoint(b))] + [Control(RollbackTo(a))]))
  }

  lemma LongBack(a: string, b: string, d: Db<int>, w: Shim<int>, c: int)
    requires Fold(a) != Fold(b) && PgName(a) == PgName(b)
    requires Same({a, b}, d, w) && d.levels == [Point(a, c), Point(b, c + 1)]
    ensures Do(d, RollbackTo(a)).contents == c && RunCommand(w, RollbackTo(a)).session.contents == c + 1
  {
    hide Fold, PgName;
    assert SameLevel({a, b}, d.levels[0], w.frames[1], w.session.stack[0], 1);
    assert SameLevel({a, b}, d.levels[1], w.frames[2], w.session.stack[1], 2);
    LastIndexIs(d.levels, PointNamed(a), 0);
    LastIndexIs(w.frames, FrameNamed(a), 1);
    LastIndexIs(w.session.stack, Named(a), 1);
    hide LastIndex, SameLevel;
    Exec1(w.session, RollbackTo(a));
  }

  lemma SqliteMore<C>(d: S.Db<C>, op: Op<C>, rest: seq<Op<C>>)
    requires !BeginsInside(d, op)
    ensures SqliteRun(d, [op] + rest) == SqliteRun(SqliteStep(d, op), rest)
    ensures NoneBeginsInside(SqliteStep(d, op), rest) ==> NoneBeginsInside(d, [op] + rest)
  {
    assert ([op] + rest)[1..] == rest;
  }

  lemma LongSqlite(c: int, a: string, b: string)
    requires Fold(a) != Fold(b)
    ensures SqliteRun(S.Closed(c), LongRun(a, b)).contents == c
    ensures NoneBeginsInside(S.Closed(c), LongRun(a, b))
  {
    var set1, raise, set2, back: Op<int> :=
      Control(Savepoint(a)), Change(Raise()), Control(Savepoint(b)), Control(RollbackTo(a));
    var d1, d2 := S.Db(c, c, false, [S.Point(a, c)]), S.Db(c, c + 1, false, [S.Point(a, c)]);
    var d3 := S.Db(c, c + 1, false, [S.Point(a, c), S.Point(b, c + 1)]);
    assert S.Do(S.Closed(c), Savepoint(a)).points == [S.Point(a, c)];
    assert S.Do(d2, Savepoint(b)).points == d3.points;
    assert SqliteStep(S.Closed(c), set1) == d1 && SqliteStep(d1, raise) == d2 && SqliteStep(d2, set2) == d3;
    LastIndexIs(d3.points, S.PointNamed(a), 0);
    assert SqliteStep(d3, back).contents == c;
    hide SqliteRun, SqliteStep, NoneBeginsInside, Fold;
    SqliteMore(S.Closed(c), set1, [raise] + ([set2] + [back]));
    SqliteMore(d1, raise, [set2] + [back]);
    SqliteMore(d2, set2, [back]);
    SqliteLast(d3, back);
  }

  lemma SqliteLast<C>(d: S.Db<C>, op: Op<C>)
    requires !BeginsInside(d, op)
    ensures SqliteRun(d, [op]) == SqliteStep(d, op) && NoneBeginsInside(d, [op])
  {
    assert [op][1..] == [];
  }

  lemma LongNames(c: int, a: string, b: string)
    requires Fold(a) != Fold(b) && PgName(a) == PgName(b)
    ensures SqliteRun(S.Closed(c), LongRun(a, b)).contents == c && NoneBeginsInside(S.Closed(c), LongRun(a, b))
    ensures IntendedRun(Closed(c), LongRun(a, b)).contents == c
    ensures ShimRun(Connected(c), LongRun(a, b), true).session.contents == c + 1
  {
    LongSqlite(c, a, b);
    var set1, raise, set2, back: Op<int> :=
      Control(Savepoint(a)), Change(Raise()), Control(Savepoint(b)), Control(RollbackTo(a));
    var d0, w0 := Closed(c), Connected(c);
    var d1, w1 := IntendedStep(d0, set1), ShimStep(w0, set1, true);
    var d2, w2 := IntendedStep(d1, raise), ShimStep(w1, raise, true);
    var d3, w3 := IntendedStep(d2, set2), ShimStep(w2, set2, true);
    SavepointSame({a, b}, d0, w0, a);
    ChangeSame({a, b}, d1, w1, Raise());
    SavepointSame({a, b}, d2, w2, b);
    assert d1.levels == [Point(a, c)];
    assert d3.levels == [Point(a, c), Point(b, c + 1)];
    LongBack(a, b, d3, w3, c);
    OneMore(d0, w0, set1, [raise] + ([set2] + [back]));
    OneMore(d1, w1, raise, [set2] + [back]);
    OneMore(d2, w2, set2, [back]);
    One(d3, w3, back);
  }

  /** Two names that are one to PostgreSQL always show, in one of the two
      runs. */
  function Telling(a: string, b: string): seq<Op<int>> {
    if Fold(a) == Fold(b) then [Control(Savepoint(a)), Control(Release(b))] else LongRun(a, b)
  }

  lemma Tells(c: int, a: string, b: string)
    requires a != b && PgName(a) == PgName(b)
    ensures NoneBeginsInside(S.Closed(c), Telling(a, b))
    ensures !Shows(SqliteRun(S.Closed(c), Telling(a, b)), ShimRun(Connected(c), Telling(a, b), true))
    ensures !ShowsNested(IntendedRun(Closed(c), Telling(a, b)), ShimRun(Connected(c), Telling(a, b), true))
  {
    hide PgName, SqliteRun, IntendedRun, ShimRun, NoneBeginsInside;
    if Fold(a) == Fold(b) {
      CaseMatters(c, a, b);
    } else {
      LongNames(c, a, b);
    }
  }

  /** Every run over the names, without a BEGIN inside a transaction, shows
      what SQLite shows. */
  ghost predicate ShowsSqlite(names: set<string>) {
    forall c: int, ops: seq<Op<int>> :: UsesNames(ops, names) && NoneBeginsInside(S.Closed(c), ops) ==>
      Shows(SqliteRun(S.Closed(c), ops), ShimRun(Connected(c), ops, true))
  }

  /** They all do exactly when no two of the names are one to PostgreSQL. */
  lemma NamesExact(names: set<string>)
    ensures ShowsSqlite(names) <==> PgTellsApart(names)
  {
    if PgTellsApart(names) {
      forall c: int, ops: seq<Op<int>> | UsesNames(ops, names) && NoneBeginsInside(S.Closed(c), ops)
        ensures Shows(SqliteRun(S.Closed(c), ops), ShimRun(Connected(c), ops, true))
      {
        RunFromStart(names, c, ops);
      }
    } else {
      var a, b :| a in names && b in names && PgName(a) == PgName(b) && a != b;
      Tells(0, a, b);
      assert UsesNames(Telling(a, b), names);
    }
  }

  /** Every run over the names shows what the plan intends. */
  ghost predicate ShowsIntended(names: set<string>) {
    forall c: int, ops: seq<Op<int>> :: UsesNames(ops, names) ==>
      ShowsNested(IntendedRun(Closed(c), ops), ShimRun(Connected(c), ops, true))
  }

  ghost predicate ShowsNested<C>(d: Db<C>, w: Shim<C>) {
    d.contents == w.session.contents && d.committed == w.session.committed && w.session.open == InTransaction(d)
  }

  /** A savepoint set m times. */
  function Points(a: string, m: nat): seq<Op<int>> {
    if m == 0 then [] else Points(a, m - 1) + [Control(Savepoint(a))]
  }

  function Raise(): Write<int> {
    Write((c: int) => c + 1, true, None)
  }

  predicate OneOf(a: string, d: Db<int>, c: int, m: nat) {
    d.begun && d.contents == c && |d.levels| == m && forall i :: 0 <= i < m ==> d.levels[i] == Point(a, c)
  }

  lemma {:induction false} PointsSet(a: string, d: Db<int>, w: Shim<int>, c: int, m: nat)
    requires Same({a}, d, w) && OneOf(a, d, c, 0)
    ensures Same({a}, IntendedRun(d, Points(a, m)), ShimRun(w, Points(a, m), true))
    ensures OneOf(a, IntendedRun(d, Points(a, m)), c, m)
  {
    hide Same;
    if m > 0 {
      PointsSet(a, d, w, c, m - 1);
      var set1: seq<Op<int>> := [Control(Savepoint(a))];
      SplitIntended(d, Points(a, m - 1), set1);
      SplitShim(w, Points(a, m - 1), set1);
      var e, v := IntendedRun(d, Points(a, m - 1)), ShimRun(w, Points(a, m - 1), true);
      assert set1[1..] == [];
      assert IntendedRun(e, set1) == Do(e, Savepoint(a)) && ShimRun(v, set1, true) == RunCommand(v, Savepoint(a));
      SavepointSame({a}, e, v, a);
    }
  }

  /** A name the shim also gives a nested BEGIN: going back to the savepoint
      goes back to the nested BEGIN instead, and keeps what was written before
      it. */
  lemma ClashBack(a: string, d: Db<int>, w: Shim<int>, c: int, n: nat)
    requires n >= 2 && PgName(a) == PgName(NestedName(n))
    requires Same({a}, d, w) && |d.levels| == n && d.levels[n - 2] == Point(a, c) && d.levels[n - 1] == Nested(c + 1)
    ensures Do(d, RollbackTo(a)).contents == c && RunCommand(w, RollbackTo(a)).session.contents == c + 1
  {
    hide Fold, PgName, NestedName;
    assert SameLevel({a}, d.levels[n - 2], w.frames[n - 1], w.session.stack[n - 2], n - 1);
    assert SameLevel({a}, d.levels[n - 1], w.frames[n], w.session.stack[n - 1], n);
    LastIndexIs(d.levels, PointNamed(a), n - 2);
    LastIndexIs(w.frames, FrameNamed(a), n - 1);
    LastIndexIs(w.session.stack, Named(a), n - 1);
    hide LastIndex, SameLevel;
    Exec1(w.session, RollbackTo(a));
  }

  lemma ClashAt(a: string, d: Db<int>, w: Shim<int>, c: int, n: nat)
    requires n >= 2 && PgName(a) == PgName(NestedName(n))
    requires Same({a}, d, w) && OneOf(a, d, c, n - 1)
    ensures var e, v := IntendedStep(d, Change(Raise())), ShimStep(w, Change(Raise()), true);
      && Do(Do(e, Begin), RollbackTo(a)).contents == c
      && RunCommand(RunCommand(v, Begin), RollbackTo(a)).session.contents == c + 1
  {
    hide Same, RunCommand, ShimStep, PgName, NestedName;
    var e, v := IntendedStep(d, Change(Raise())), ShimStep(w, Change(Raise()), true);
    ChangeSame({a}, d, w, Raise());
    BeginSame({a}, e, v);
    assert Do(e, Begin).levels == d.levels + [Nested(c + 1)];
    ClashBack(a, Do(e, Begin), RunCommand(v, Begin), c, n);
  }

  function ClashRun(a: string, n: nat): seq<Op<int>>
    requires n >= 2
  {
    [Control(Begin)] + (Points(a, n - 1) + ([Change(Raise())] + ([Control(Begin)] + [Control(RollbackTo(a))])))
  }

  lemma One(d: Db<int>, w: Shim<int>, op: Op<int>)
    ensures IntendedRun(d, [op]) == IntendedStep(d, op) && ShimRun(w, [op], true) == ShimStep(w, op, true)
  {
    assert [op][1..] == [];
  }

  lemma OneMore(d: Db<int>, w: Shim<int>, op: Op<int>, rest: seq<Op<int>>)
    ensures IntendedRun(d, [op] + rest) == IntendedRun(IntendedStep(d, op), rest)
    ensures ShimRun(w, [op] + rest, true) == ShimRun(ShimStep(w, op, true), rest, true)
  {
    assert ([op] + rest)[1..] == rest;
  }

  lemma NestedNameClash(c: int, a: string, n: nat)
    requires n >= 2 && PgName(a) == PgName(NestedName(n))
    ensures IntendedRun(Closed(c), ClashRun(a, n)).contents == c
    ensures ShimRun(Connected(c), ClashRun(a, n), true).session.contents == c + 1
  {
    var d0, w0 := Closed(c), Connected(c);
    var d1, w1 := Do(d0, Begin), RunCommand(w0, Begin);
    assert Same({a}, d0, w0);
    BeginSame({a}, d0, w0);
    PointsSet(a, d1, w1, c, n - 1);
    var d2, w2 := IntendedRun(d1, Points(a, n - 1)), ShimRun(w1, Points(a, n - 1), true);
    ClashAt(a, d2, w2, c, n);
    hide Same, Do, RunCommand, IntendedStep, ShimStep, IntendedRun, ShimRun, Points, OneOf, PgName;
    var raise, begin, back: Op<int> := Change(Raise()), Control(Begin), Control(RollbackTo(a));
    var d3, w3 := IntendedStep(d2, raise), ShimStep(w2, raise, true);
    Stepped(d0, w0, d3, w3, a);
    OneMore(d0, w0, begin, Points(a, n - 1) + ([raise] + ([begin] + [back])));
    SplitIntended(d1, Points(a, n - 1), [raise] + ([begin] + [back]));
    SplitShim(w1, Points(a, n - 1), [raise] + ([begin] + [back]));
    OneMore(d2, w2, raise, [begin] + [back]);
    OneMore(d3, w3, begin, [back]);
    One(Do(d3, Begin), RunCommand(w3, Begin), back);
  }

  lemma Stepped(d0: Db<int>, w0: Shim<int>, d: Db<int>, w: Shim<int>, a: string)
    ensures IntendedStep(d0, Control(Begin)) == Do(d0, Begin) && ShimStep(w0, Control(Begin), true) == RunCommand(w0, Begin)
    ensures IntendedStep(d, Control(Begin)) == Do(d, Begin) && ShimStep(w, Control(Begin), true) == RunCommand(w, Begin)
    ensures IntendedStep(Do(d, Begin), Control(RollbackTo(a))) == Do(Do(d, Begin), RollbackTo(a))
    ensures ShimStep(RunCommand(w, Begin), Control(RollbackTo(a)), true) == RunCommand(RunCommand(w, Begin), RollbackTo(a))
  {
  }

  lemma ClashUses(names: set<string>, a: string, n: nat)
    requires n >= 2 && a in names
    ensures UsesNames(ClashRun(a, n), names)
  {
    PointsUse(names, a, n - 1);
  }

  lemma {:induction false} PointsUse(names: set<string>, a: string, m: nat)
    requires a in names
    ensures UsesNames(Points(a, m), names)
  {
    if m > 0 {
      PointsUse(names, a, m - 1);
    }
  }

  /** They all do exactly when no two of the names are one to PostgreSQL and
      none is the shim's for a nested BEGIN above a savepoint. */
  lemma NestedNamesExact(names: set<string>)
    ensures ShowsIntended(names) <==> Distinguishable(names)
  {
    if Distinguishable(names) {
      forall c: int, ops: seq<Op<int>> | UsesNames(ops, names)
        ensures ShowsNested(IntendedRun(Closed(c), ops), ShimRun(Connected(c), ops, true))
      {
        assert Same(names, Closed(c), Connected(c));
        RunIsIntended(names, Closed(c), Connected(c), ops);
      }
    } else if !PgTellsApart(names) {
      var a, b :| a in names && b in names && PgName(a) == PgName(b) && a != b;
      Tells(0, a, b);
      assert UsesNames(Telling(a, b), names);
    } else {
      var a, n: nat :| a in names && n >= 2 && PgName(a) == PgName(NestedName(n));
      NestedNameClash(0, a, n);
      ClashUses(names, a, n);
      assert !ShowsNested(IntendedRun(Closed(0), ClashRun(a, n)), ShimRun(Connected(0), ClashRun(a, n), true));
    }
  }
}
