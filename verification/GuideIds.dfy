/** Session and id sequence of a guide load in one machine: every run of the
    shim leaves the next id above every id present. */
module GuideIds {
  import opened Common
  import opened PgSession
  import opened TxnPlan
  import opened GuideLoad
  import I = IdSequence

  // ----- what a write does to the sequence ------------------------------

  /** A bracket that was not refused is left with the contents it had. */
  lemma ReleasedContents<C>(s: Session<C>, name: string, effect: C -> C)
    requires !s.failed
    ensures var b := Exec(s, Savepoint(name));
      var r := Run(b.session, effect, true);
      && !b.session.failed && r.ok && b.ok == s.open && b.session.contents == s.contents
      && r.session.contents == effect(s.contents)
      && (if b.ok then Leave(r.session, name, true) == s.(contents := effect(s.contents)) else b.session == s)
  {
    if s.open {
      BracketLeaves(s, name, effect, true);
    }
  }

  lemma ResyncRaises<C, Q>(s: Session<C>, q: Q, inTransaction: bool, accepted: bool, raise: (Q, C) -> Q)
    requires !s.failed
    ensures ResyncedSequence(s, q, inTransaction, accepted, raise) == if accepted then raise(q, s.contents) else q
  {
    ReleasedContents(s, RESYNC_SAVEPOINT, Itself<C>);
  }

  /** The sequence is raised to what the write made of the contents exactly when
      the write was accepted and assigned ids and the resync was accepted, in a
      transaction or not, under a savepoint or not. */
  lemma WriteRaises<C, Q>(s: Session<C>, q: Q, inTransaction: bool, savepoints: bool, write: Write<C>,
                          draw: Q -> Q, raise: (Q, C) -> Q)
    requires s.failed ==> s.open
    ensures WrittenSequence(s, q, inTransaction, savepoints, write, draw, raise) ==
      if s.failed then q
      else if write.accepted && write.resync == Some(true) then raise(draw(q), write.effect(s.contents))
      else draw(q)
  {
    if !s.failed {
      ReleasedContents(s, STATEMENT_SAVEPOINT, write.effect);
      if write.accepted {
        var after := s.(contents := write.effect(s.contents));
        var alone := Run(s, write.effect, true).session;
        hide Exec, Leave;
        if write.resync.Some? {
          ResyncRaises(after, draw(q), inTransaction, write.resync.value, raise);
          ResyncRaises(alone, draw(q), inTransaction, write.resync.value, raise);
        }
      }
    }
  }

  // ----- the ids below a bound ------------------------------------------

  /** Every id a session holds, has committed or can go back to is below; and a
      session that has failed is in a transaction. */
  ghost predicate AllBelow(s: Session<set<int>>, n: int) {
    && (s.failed ==> s.open)
    && I.Below(s.contents, n) && I.Below(s.committed, n)
    && forall i :: 0 <= i < |s.stack| ==> I.Below(s.stack[i].snapshot, n)
  }

  lemma Raise(s: Session<set<int>>, m: int, n: int)
    requires AllBelow(s, m) && m <= n
    ensures AllBelow(s, n)
  {
    forall i | 0 <= i < |s.stack|
      ensures I.Below(s.stack[i].snapshot, n)
    {
      assert I.Below(s.stack[i].snapshot, m);
    }
  }

  lemma ExecBelow(s: Session<set<int>>, cmd: Command, n: int)
    requires AllBelow(s, n)
    ensures AllBelow(Exec(s, cmd).session, n)
  {
    hide I.Below;
    var s' := Exec(s, cmd).session;
    forall i | 0 <= i < |s'.stack|
      ensures I.Below(s'.stack[i].snapshot, n)
    {
      assert i < |s.stack| ==> I.Below(s.stack[i].snapshot, n);
    }
  }

  lemma RunBelow(s: Session<set<int>>, effect: set<int> -> set<int>, accepted: bool, n: int)
    requires AllBelow(s, n) && (!s.failed && accepted ==> I.Below(effect(s.contents), n))
    ensures AllBelow(Run(s, effect, accepted).session, n)
  {
    hide I.Below;
    var s' := Run(s, effect, accepted).session;
    assert s'.stack == s.stack;
  }

  lemma LeaveBelow(s: Session<set<int>>, name: string, succeeded: bool, n: int)
    requires AllBelow(s, n)
    ensures AllBelow(Leave(s, name, succeeded), n)
  {
    hide AllBelow, Exec;
    var back := if succeeded then s else Exec(s, RollbackTo(name)).session;
    if !succeeded {
      ExecBelow(s, RollbackTo(name), n);
    }
    ExecBelow(back, Release(name), n);
  }

  lemma ResyncBelow(s: Session<set<int>>, inTransaction: bool, accepted: bool, n: int)
    requires AllBelow(s, n)
    ensures AllBelow(Resynced(s, inTransaction, accepted), n)
  {
    hide AllBelow, Exec, Run, Leave;
    var begun := if inTransaction then Exec(s, Savepoint(RESYNC_SAVEPOINT)) else Reply(s, false);
    ExecBelow(s, Savepoint(RESYNC_SAVEPOINT), n);
    IdleRunBelow(begun.session, accepted, n);
    var r := Run(begun.session, Itself<set<int>>, accepted);
    LeaveBelow(r.session, RESYNC_SAVEPOINT, r.ok, n);
  }

  lemma IdleRunBelow(s: Session<set<int>>, accepted: bool, n: int)
    requires AllBelow(s, n)
    ensures AllBelow(Run(s, Itself<set<int>>, accepted).session, n)
  {
    RunBelow(s, Itself<set<int>>, accepted, n);
  }

  lemma SavepointSees<C>(s: Session<C>, name: string)
    ensures var b := Exec(s, Savepoint(name)).session; b.contents == s.contents && (s.failed && s.open ==> b.failed)
  {
  }

  lemma WrittenBelow(s: Session<set<int>>, inTransaction: bool, savepoints: bool, write: Write<set<int>>, n: int)
    requires AllBelow(s, n) && (!s.failed && write.accepted ==> I.Below(write.effect(s.contents), n))
    ensures AllBelow(Written(s, inTransaction, savepoints, write), n)
  {
    SavepointSees(s, STATEMENT_SAVEPOINT);
    assert s.failed ==> s.open;
    hide AllBelow, Exec, Leave, Run, Resynced, I.Below;
    var begun := if savepoints && inTransaction then Exec(s, Savepoint(STATEMENT_SAVEPOINT)) else Reply(s, false);
    ExecBelow(s, Savepoint(STATEMENT_SAVEPOINT), n);
    RunBelow(begun.session, write.effect, write.accepted, n);
    var r := Run(begun.session, write.effect, write.accepted);
    LeaveBelow(r.session, STATEMENT_SAVEPOINT, r.ok, n);
    var s' := if begun.ok then Leave(r.session, STATEMENT_SAVEPOINT, r.ok) else r.session;
    if write.resync.Some? {
      ResyncBelow(s', inTransaction, write.resync.value, n);
    }
  }

  lemma {:induction false} ExecAllBelow(s: Session<set<int>>, cmds: seq<Command>, n: int)
    requires AllBelow(s, n)
    ensures AllBelow(ExecAll(s, cmds).session, n)
    decreases cmds
  {
    hide AllBelow, Exec;
    if cmds != [] {
      ExecBelow(s, cmds[0], n);
      ExecAllBelow(Exec(s, cmds[0]).session, cmds[1..], n);
    }
  }

  // ----- the machine ----------------------------------------------------

  /** The shim on its connection, and the sequence. */
  datatype Load = Load(shim: Shim<set<int>>, sequence: I.Sequence)

  datatype Op =
    | Control(cmd: Command)
    | Generate(accepted: bool)                                              // INSERT without an id
    | AssignIds(removed: set<int>, added: set<int>, accepted: bool)         // INSERT or UPDATE of ids, then the resync
    | Delete(removed: set<int>, accepted: bool)

  /** The statement an operation sends, and what it draws from the sequence.
      One that assigned ids is followed by the resync. */
  ghost function WriteOf(op: Op, q: I.Sequence): Write<set<int>>
    requires !op.Control?
  {
    match op
    case Generate(accepted) => Write((ids: set<int>) => ids + {I.Next(q)}, accepted, None)
    case AssignIds(removed, added, accepted) => Write((ids: set<int>) => ids - removed + added, accepted, Some(true))
    case Delete(removed, accepted) => Write((ids: set<int>) => ids - removed, accepted, None)
  }

  ghost function DrawOf(op: Op): I.Sequence -> I.Sequence {
    (q: I.Sequence) => if op.Generate? then I.Taken(q) else q
  }

  ghost function RaiseTo(): (I.Sequence, set<int>) -> I.Sequence {
    (q: I.Sequence, ids: set<int>) => I.Raised(q, ids)
  }

  /** One operation, with statement savepoints or without. */
  ghost function Step(l: Load, op: Op, savepoints: bool): Load {
    if op.Control? then l.(shim := RunCommand(l.shim, op.cmd))
    else
      var s, inTransaction, write := l.shim.session, l.shim.frames != [], WriteOf(op, l.sequence);
      Load(l.shim.(session := Written(s, inTransaction, savepoints, write)),
           WrittenSequence(s, l.sequence, inTransaction, savepoints, write, DrawOf(op), RaiseTo()))
  }

  ghost predicate Fresh(l: Load) {
    I.Ours(l.sequence) && AllBelow(l.shim.session, I.Next(l.sequence))
  }

  lemma ControlFresh(l: Load, cmd: Command)
    requires Fresh(l)
    ensures Fresh(l.(shim := RunCommand(l.shim, cmd)))
  {
    hide AllBelow;
    var (cmds, next) := Plan(l.shim.frames, cmd);
    ExecAllBelow(l.shim.session, cmds, I.Next(l.sequence));
  }

  /** The sequence after a write, and that it is past what the write leaves. */
  lemma SequenceAfter(l: Load, op: Op, savepoints: bool)
    requires Fresh(l) && !op.Control?
    ensures var q := Step(l, op, savepoints).sequence;
      var write := WriteOf(op, l.sequence);
      && I.Ours(q) && I.Next(l.sequence) <= I.Next(q)
      && (!l.shim.session.failed && write.accepted ==> I.Below(write.effect(l.shim.session.contents), I.Next(q)))
  {
    var s, write := l.shim.session, WriteOf(op, l.sequence);
    WriteRaises(s, l.sequence, l.shim.frames != [], savepoints, write, DrawOf(op), RaiseTo());
    hide Written, WrittenSequence;
    if op.AssignIds? {
      var after := write.effect(s.contents);
      I.RaisedNext(l.sequence, after);
      I.BelowMax(after);
    }
  }

  /** Every operation keeps the next id above every id present, committed, or
      that a rollback can bring back, and never lowers it. */
  lemma StepFresh(l: Load, op: Op, savepoints: bool)
    requires Fresh(l)
    ensures Fresh(Step(l, op, savepoints))
    ensures I.Next(l.sequence) <= I.Next(Step(l, op, savepoints).sequence)
  {
    if op.Control? {
      ControlFresh(l, op.cmd);
    } else {
      SequenceAfter(l, op, savepoints);
      var n, write := I.Next(Step(l, op, savepoints).sequence), WriteOf(op, l.sequence);
      Raise(l.shim.session, I.Next(l.sequence), n);
      hide AllBelow, I.Below, I.Next, I.Ours, Written, WrittenSequence, WriteOf;
      WrittenBelow(l.shim.session, l.shim.frames != [], savepoints, write, n);
    }
  }

  ghost function RunAll(l: Load, ops: seq<Op>, savepoints: bool): Load
    decreases ops
  {
    if ops == [] then l else RunAll(Step(l, ops[0], savepoints), ops[1..], savepoints)
  }

  lemma {:induction false} RunFresh(l: Load, ops: seq<Op>, savepoints: bool)
    requires Fresh(l)
    ensures Fresh(RunAll(l, ops, savepoints))
    ensures I.Next(l.sequence) <= I.Next(RunAll(l, ops, savepoints).sequence)
    decreases ops
  {
    hide Fresh, Step;
    if ops != [] {
      StepFresh(l, ops[0], savepoints);
      RunFresh(Step(l, ops[0], savepoints), ops[1..], savepoints);
    }
  }

  /** Whatever a load runs on a new table, control and writes accepted or
      refused, the id the next insert takes is above every id present. */
  lemma LoadsNextId(ops: seq<Op>, savepoints: bool)
    ensures var l := RunAll(Load(Connected({}), I.NewSequence), ops, savepoints);
      I.Below(l.shim.session.contents, I.Next(l.sequence))
  {
    RunFresh(Load(Connected({}), I.NewSequence), ops, savepoints);
  }
}
