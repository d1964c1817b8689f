/** `pg_client::txn`: Plex's transaction control, planned as PostgreSQL
    statements over a stack of frames. */
module TxnPlan {
  import opened Common
  import opened PgSession
  import opened NestedTxn

  datatype Frame = Outer(explicit: bool) | PointFrame(name: string) | NestedBegin(name: string)

  function NestedName(depth: nat): string {
    "plexpg_nested_" + Decimal(depth)
  }

  function FrameNamed(name: string): Frame -> bool {
    (f: Frame) => f == PointFrame(name)
  }

  /** What to send PostgreSQL for a command, and the frames after it. */
  function Plan(frames: seq<Frame>, cmd: Command): (seq<Command>, seq<Frame>) {
    var top := if frames == [] then Outer(true) else frames[|frames| - 1];
    match cmd
    case Begin =>
      if frames == [] then ([Begin], [Outer(true)])
      else
        var name := NestedName(|frames|);
        ([Savepoint(name)], frames + [NestedBegin(name)])
    case Commit =>
      if frames == [] then ([], frames)
      else if top.NestedBegin? then ([Release(top.name)], frames[..|frames| - 1])
      else ([Commit], [])
    case Rollback =>
      if frames == [] then ([], frames)
      else if top.NestedBegin? then ([RollbackTo(top.name), Release(top.name)], frames[..|frames| - 1])
      else ([Rollback], [])
    case Savepoint(name) =>
      if frames == [] then ([Begin, Savepoint(name)], [Outer(false), PointFrame(name)])
      else ([Savepoint(name)], frames + [PointFrame(name)])
    case Release(name) =>
      var pos := LastIndex(frames, FrameNamed(name));
      if pos.None? then ([], frames)
      else if frames[..pos.value] == [Outer(false)] then ([Release(name), Commit], [])
      else ([Release(name)], frames[..pos.value])
    case RollbackTo(name) =>
      var pos := LastIndex(frames, FrameNamed(name));
      if pos.None? then ([], frames)
      else ([RollbackTo(name)], frames[..pos.value + 1])
  }

  /** The session after the statements, up to the first one refused. */
  function ExecAll<C>(s: Session<C>, cmds: seq<Command>): Reply<C>
    decreases cmds
  {
    if cmds == [] then Reply(s, true)
    else
      var r := Exec(s, cmds[0]);
      if r.ok then ExecAll(r.session, cmds[1..]) else r
  }

  /** The shim's frames and the session they stand for. */
  datatype Shim<C> = Shim(frames: seq<Frame>, session: Session<C>)

  /** A command on a connection: the plan becomes the frames when PostgreSQL
      accepts all of it; otherwise what PostgreSQL thinks counts. */
  function RunCommand<C>(w: Shim<C>, cmd: Command): Shim<C> {
    var (cmds, next) := Plan(w.frames, cmd);
    var r := ExecAll(w.session, cmds);
    if r.ok then Shim(next, r.session)
    else Shim(if r.session.open then w.frames else [], r.session)
  }

  // ----- the simulation -------------------------------------------------

  /** Names that differ are two names to PostgreSQL: they differ in more than
      case within their first 63 bytes. */
  ghost predicate PgTellsApart(names: set<string>) {
    forall a, b :: a in names && b in names && PgName(a) == PgName(b) ==> a == b
  }

  /** No name is one the shim may give a nested BEGIN above a savepoint: the
      first frame is the transaction and the second that savepoint. */
  ghost predicate NotNested(names: set<string>) {
    forall a, n: nat :: a in names && n >= 2 ==> PgName(a) != PgName(NestedName(n))
  }

  ghost predicate Distinguishable(names: set<string>) {
    PgTellsApart(names) && NotNested(names)
  }

  /** No name is the shim's for a nested BEGIN that stands above a level. */
  ghost predicate NestedApart<C>(names: set<string>, d: Db<C>) {
    forall a, i :: a in names && 1 <= i < |d.levels| && d.levels[i].Nested? ==> PgName(a) != PgName(NestedName(i + 1))
  }

  /** One level of the intended nesting, the shim's frame for it and PostgreSQL's
      savepoint. */
  ghost predicate SameLevel<C>(names: set<string>, l: Level<C>, f: Frame, save: Save<C>, depth: nat) {
    && save.snapshot == l.snapshot
    && match l {
      case Point(name, _) => name in names && f == PointFrame(name) && save.name == name
      case Nested(_) => f == NestedBegin(NestedName(depth)) && save.name == NestedName(depth)
    }
  }

  ghost predicate Same<C>(names: set<string>, d: Db<C>, w: Shim<C>) {
    && d.contents == w.session.contents && d.committed == w.session.committed
    && w.session.open == InTransaction(d) && !w.session.failed && Sane(w.session)
    && |w.session.stack| == |d.levels|
    && (if InTransaction(d) then |w.frames| == |d.levels| + 1 && w.frames[0] == Outer(d.begun) else w.frames == [])
    && (forall i :: 0 <= i < |d.levels| ==>
          SameLevel(names, d.levels[i], w.frames[i + 1], w.session.stack[i], i + 1))
    && (!d.begun && d.levels != [] ==> d.levels[0].Point?)
  }

  /** The frames find a name where the levels do, and above the lowest level
      PostgreSQL does too. */
  lemma LevelsAgree<C>(names: set<string>, d: Db<C>, w: Shim<C>, name: string, i: nat)
    requires Same(names, d, w) && PgTellsApart(names) && NestedApart(names, d) && name in names && i < |d.levels|
    ensures PointNamed(name)(d.levels[i]) <==> FrameNamed(name)(w.frames[i + 1])
    ensures PointNamed(name)(d.levels[i]) ==> Named(name)(w.session.stack[i])
    ensures i > 0 && Named(name)(w.session.stack[i]) ==> PointNamed(name)(d.levels[i])
  {
    assert SameLevel(names, d.levels[i], w.frames[i + 1], w.session.stack[i], i + 1);
  }

  lemma SameFind<C>(names: set<string>, d: Db<C>, w: Shim<C>, name: string)
    requires Same(names, d, w) && PgTellsApart(names) && NestedApart(names, d) && name in names
    ensures var k := LastIndex(d.levels, PointNamed(name));
      && (k.None? ==> LastIndex(w.frames, FrameNamed(name)) == None)
      && (k.Some? ==> LastIndex(w.frames, FrameNamed(name)) == Some(k.value + 1)
                      && LastIndex(w.session.stack, Named(name)) == k)
  {
    var k := LastIndex(d.levels, PointNamed(name));
    forall i: nat | i < |d.levels|
      ensures PointNamed(name)(d.levels[i]) <==> FrameNamed(name)(w.frames[i + 1])
      ensures PointNamed(name)(d.levels[i]) ==> Named(name)(w.session.stack[i])
      ensures i > 0 && Named(name)(w.session.stack[i]) ==> PointNamed(name)(d.levels[i])
    {
      LevelsAgree(names, d, w, name, i);
    }
    hide NestedApart, PgTellsApart;
    if d.levels == [] {
      FramesOnly(d, w, names, name);
    } else {
      hide SameLevel;
      LastIndexBehind(d.levels, PointNamed(name), w.frames, FrameNamed(name));
      if k.Some? {
        LastIndexAbove(d.levels, PointNamed(name), w.session.stack, Named(name));
      }
    }
  }

  lemma FramesOnly<C>(d: Db<C>, w: Shim<C>, names: set<string>, name: string)
    requires Same(names, d, w) && d.levels == []
    ensures LastIndex(w.frames, FrameNamed(name)).None?
  {
  }

  /** Cutting the stacks at the same level. */
  lemma SameCut<C>(names: set<string>, d: Db<C>, w: Shim<C>, k: nat, contents: C)
    requires Same(names, d, w) && k <= |d.levels| && InTransaction(d) && (k > 0 || d.begun)
    ensures Same(names, d.(levels := d.levels[..k], contents := contents),
                 Shim(w.frames[..k + 1], w.session.(stack := w.session.stack[..k], contents := contents)))
  {
  }

  lemma Exec1<C>(s: Session<C>, cmd: Command)
    ensures ExecAll(s, [cmd]) == Exec(s, cmd)
  {
    assert [cmd][1..] == [];
  }

  lemma Exec2<C>(s: Session<C>, a: Command, b: Command)
    requires Exec(s, a).ok
    ensures ExecAll(s, [a, b]) == Exec(Exec(s, a).session, b)
  {
    assert [a, b][1..] == [b];
    Exec1(Exec(s, a).session, b);
  }

  lemma PushSame<C>(names: set<string>, d: Db<C>, w: Shim<C>, l: Level<C>, f: Frame, save: Save<C>)
    requires Same(names, d, w) && InTransaction(d)
    requires SameLevel(names, l, f, save, |d.levels| + 1)
    ensures Same(names, d.(levels := d.levels + [l]),
                 Shim(w.frames + [f], w.session.(stack := w.session.stack + [save])))
  {
  }

  lemma BeginSame<C>(names: set<string>, d: Db<C>, w: Shim<C>)
    requires Same(names, d, w)
    ensures Same(names, Do(d, Begin), RunCommand(w, Begin))
  {
    if InTransaction(d) {
      var name := NestedName(|w.frames|);
      Exec1(w.session, Savepoint(name));
      PushSame(names, d, w, Nested(d.contents), NestedBegin(name), Save(name, d.contents));
    } else {
      Exec1(w.session, Begin);
    }
  }

  lemma SavepointSame<C>(names: set<string>, d: Db<C>, w: Shim<C>, name: string)
    requires Same(names, d, w) && name in names
    ensures Same(names, Do(d, Savepoint(name)), RunCommand(w, Savepoint(name)))
  {
    if InTransaction(d) {
      Exec1(w.session, Savepoint(name));
      PushSame(names, d, w, Point(name, d.contents), PointFrame(name), Save(name, d.contents));
    } else {
      Exec2(w.session, Begin, Savepoint(name));
    }
  }

  /** The top of the stacks is a nested BEGIN on all three sides or on none. */
  lemma TopAgrees<C>(names: set<string>, d: Db<C>, w: Shim<C>)
    requires Same(names, d, w) && InTransaction(d)
    ensures TopNested(d) <==> w.frames[|w.frames| - 1].NestedBegin?
    ensures TopNested(d) ==>
      var n, top := |d.levels| - 1, w.frames[|w.frames| - 1];
      && LastIndex(w.session.stack, Named(top.name)) == Some(n)
      && w.session.stack[n] == Save(top.name, d.levels[n].snapshot)
      && (n > 0 || d.begun)
  {
    if d.levels != [] {
      var n := |d.levels| - 1;
      assert SameLevel(names, d.levels[n], w.frames[n + 1], w.session.stack[n], n + 1);
      if TopNested(d) {
        assert w.session.stack == w.session.stack[..n] + [w.session.stack[n]];
        TopSavepoint(w.session.stack[..n], w.session.stack[n]);
      }
    }
  }

  lemma CommitSame<C>(names: set<string>, d: Db<C>, w: Shim<C>)
    requires Same(names, d, w)
    ensures Same(names, Do(d, Commit), RunCommand(w, Commit))
  {
    if InTransaction(d) {
      TopAgrees(names, d, w);
      if TopNested(d) {
        Exec1(w.session, Release(w.frames[|w.frames| - 1].name));
        SameCut(names, d, w, |d.levels| - 1, d.contents);
      } else {
        Exec1(w.session, Commit);
      }
    }
  }

  lemma RollbackSame<C>(names: set<string>, d: Db<C>, w: Shim<C>)
    requires Same(names, d, w)
    ensures Same(names, Do(d, Rollback), RunCommand(w, Rollback))
  {
    if InTransaction(d) {
      TopAgrees(names, d, w);
      if TopNested(d) {
        var n, name := |d.levels| - 1, w.frames[|w.frames| - 1].name;
        assert w.session.stack[..n + 1] == w.session.stack;
        Exec2(w.session, RollbackTo(name), Release(name));
        SameCut(names, d, w, n, d.levels[n].snapshot);
      } else {
        Exec1(w.session, Rollback);
      }
    }
  }

  /** What the shim does with a name it knows, at the same level of both
      stacks. */
  lemma RollbackToRuns<C>(w: Shim<C>, name: string, k: nat)
    requires w.session.open && LastIndex(w.session.stack, Named(name)) == Some(k)
    requires LastIndex(w.frames, FrameNamed(name)) == Some(k + 1)
    ensures RunCommand(w, RollbackTo(name)) ==
      Shim(w.frames[..k + 2], w.session.(stack := w.session.stack[..k + 1],
                                         contents := w.session.stack[k].snapshot, failed := false))
  {
    Exec1(w.session, RollbackTo(name));
  }

  lemma ReleaseRuns<C>(w: Shim<C>, name: string, k: nat)
    requires w.session.open && !w.session.failed && LastIndex(w.session.stack, Named(name)) == Some(k)
    requires LastIndex(w.frames, FrameNamed(name)) == Some(k + 1)
    ensures RunCommand(w, Release(name)) ==
      if w.frames[..k + 1] == [Outer(false)] then Shim([], Ended(w.session.contents))
      else Shim(w.frames[..k + 1], w.session.(stack := w.session.stack[..k]))
  {
    Exec1(w.session, Release(name));
    Exec2(w.session, Release(name), Commit);
  }

  lemma RollbackToSame<C>(names: set<string>, d: Db<C>, w: Shim<C>, name: string)
    requires Same(names, d, w) && PgTellsApart(names) && NestedApart(names, d) && name in names
    ensures Same(names, Do(d, RollbackTo(name)), RunCommand(w, RollbackTo(name)))
  {
    hide Same, RunCommand, PgTellsApart, NestedApart;
    SameFind(names, d, w, name);
    var k := LastIndex(d.levels, PointNamed(name));
    if k.Some? {
      RollbackToPoint(names, d, w, name, k.value);
    } else {
      UnknownName(w, name);
    }
  }

  lemma UnknownName<C>(w: Shim<C>, name: string)
    requires LastIndex(w.frames, FrameNamed(name)).None?
    ensures RunCommand(w, RollbackTo(name)) == RunCommand(w, Release(name)) == w
  {
  }

  lemma RollbackToPoint<C>(names: set<string>, d: Db<C>, w: Shim<C>, name: string, k: nat)
    requires Same(names, d, w) && LastIndex(d.levels, PointNamed(name)) == Some(k)
    requires LastIndex(w.frames, FrameNamed(name)) == Some(k + 1) && LastIndex(w.session.stack, Named(name)) == Some(k)
    ensures Same(names, Do(d, RollbackTo(name)), RunCommand(w, RollbackTo(name)))
  {
    hide Same, RunCommand, SameLevel, Exec, LastIndex;
    SameAt(names, d, w, k);
    RollbackToRuns(w, name, k);
    SameCut(names, d, w, k + 1, d.levels[k].snapshot);
    assert w.session.(stack := w.session.stack[..k + 1], contents := w.session.stack[k].snapshot, failed := false)
        == w.session.(stack := w.session.stack[..k + 1], contents := d.levels[k].snapshot);
  }

  lemma SameAt<C>(names: set<string>, d: Db<C>, w: Shim<C>, k: nat)
    requires Same(names, d, w) && k < |d.levels|
    ensures InTransaction(d) && w.session.open && !w.session.failed
    ensures |w.session.stack| == |d.levels| && |w.frames| == |d.levels| + 1
    ensures w.session.stack[k].snapshot == d.levels[k].snapshot
  {
    assert SameLevel(names, d.levels[k], w.frames[k + 1], w.session.stack[k], k + 1);
  }

  /** Releasing the savepoint that opened the transaction ends it. */
  lemma SameEnd<C>(names: set<string>, d: Db<C>, w: Shim<C>)
    requires Same(names, d, w)
    ensures Same(names, Closed(d.contents), Shim([], Ended(w.session.contents)))
  {
  }

  lemma ReleaseSame<C>(names: set<string>, d: Db<C>, w: Shim<C>, name: string)
    requires Same(names, d, w) && PgTellsApart(names) && NestedApart(names, d) && name in names
    ensures Same(names, Do(d, Release(name)), RunCommand(w, Release(name)))
  {
    hide Same, RunCommand, PgTellsApart, NestedApart;
    SameFind(names, d, w, name);
    var k := LastIndex(d.levels, PointNamed(name));
    if k.None? {
      UnknownName(w, name);
    } else if k.value == 0 && !d.begun {
      ReleaseOutermost(names, d, w, name);
    } else {
      ReleaseInner(names, d, w, name, k.value);
    }
  }

  lemma ReleaseOutermost<C>(names: set<string>, d: Db<C>, w: Shim<C>, name: string)
    requires Same(names, d, w) && LastIndex(d.levels, PointNamed(name)) == Some(0) && !d.begun
    requires LastIndex(w.frames, FrameNamed(name)) == Some(1) && LastIndex(w.session.stack, Named(name)) == Some(0)
    ensures Same(names, Do(d, Release(name)), RunCommand(w, Release(name)))
  {
    assert w.frames[..1] == [Outer(false)];
    ReleaseRuns(w, name, 0);
    SameEnd(names, d, w);
    hide Same, RunCommand;
  }

  lemma ReleaseInner<C>(names: set<string>, d: Db<C>, w: Shim<C>, name: string, k: nat)
    requires Same(names, d, w) && LastIndex(d.levels, PointNamed(name)) == Some(k) && (k > 0 || d.begun)
    requires LastIndex(w.frames, FrameNamed(name)) == Some(k + 1) && LastIndex(w.session.stack, Named(name)) == Some(k)
    ensures Same(names, Do(d, Release(name)), RunCommand(w, Release(name)))
  {
    assert w.frames[..k + 1][0] == Outer(d.begun);
    ReleaseRuns(w, name, k);
    SameCut(names, d, w, k, d.contents);
    hide Same, RunCommand;
  }
}
