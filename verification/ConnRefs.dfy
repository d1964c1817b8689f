/** Reference counting of pooled connections, as the atomic steps of many
    threads.

    A cell is a counted pointer: a pool slot, or one of the three connection
    pointers of a statement.  A thread works on the cells it owns, one
    operation at a time, and passes a connection only while it owns a cell
    that holds it. */
module ConnRefs {
  import opened Common

  type Conn = nat
  type Cell = nat
  type Thread = nat

  /** What a thread does once `conn_unref` returns. */
  datatype Then = StoreIn(cell: Cell, incoming: Option<Conn>) | Return

  /** Where a thread stands between two atomic steps. */
  datatype Phase =
    | Idle
    | Counted(cell: Cell, outgoing: Option<Conn>, incoming: Option<Conn>)  // conn_ref of the new pointer is done
    | Letting(conn: Conn)                                        // out of its slot, not yet unreferenced
    | Subtracted(conn: Conn, previous: int, next: Then)          // fetch_sub is done, its answer not acted on
    | Storing(cell: Cell, incoming: Option<Conn>)                     // replace_conn has returned

  datatype State = State(
    cells: map<Cell, Option<Conn>>,
    owner: map<Cell, Thread>,
    phase: map<Thread, Phase>,
    refs: map<Conn, int>,        // ref_count of every connection ever allocated
    frees: map<Conn, nat>,       // how often each was freed
    wentWrong: bool)             // a freed connection was touched, or the underflow branch ran

  datatype Step =
    | Create(t: Thread, x: Cell, c: Conn)
    | Set(t: Thread, x: Cell, incoming: Option<Conn>, from: Cell)  // a setter up to its fetch_add
    | Take(t: Thread, x: Cell)                                // the pool empties a slot
    | Subtract(t: Thread)                                     // conn_unref's fetch_sub
    | Act(t: Thread)                                          // conn_unref's branch on the answer
    | Store(t: Thread)                                        // the pointer is assigned
    | Hand(t: Thread, x: Cell, to: Thread)                    // a cell changes owner between operations

  // ----- steps ----------------------------------------------------------

  predicate IdleOwner(s: State, t: Thread, x: Cell) {
    && t in s.phase && s.phase[t].Idle?
    && x in s.cells && x in s.owner && s.owner[x] == t
  }

  predicate Enabled(s: State, step: Step) {
    match step
    case Create(t, x, c) => IdleOwner(s, t, x) && s.cells[x].None? && c !in s.refs && c !in s.frees
    case Set(t, x, incoming, from) =>
      IdleOwner(s, t, x) && (incoming.Some? ==> IdleOwner(s, t, from) && s.cells[from] == incoming)
    case Take(t, x) => IdleOwner(s, t, x) && s.cells[x].Some?
    case Subtract(t) => t in s.phase && (s.phase[t].Counted? || s.phase[t].Letting?)
    case Act(t) => t in s.phase && s.phase[t].Subtracted?
    case Store(t) => t in s.phase && s.phase[t].Storing?
    case Hand(t, x, to) => IdleOwner(s, t, x) && to in s.phase
  }

  /** An atomic read-modify-write of a connection's count. */
  function AddTo(s: State, c: Conn, delta: int): State {
    var live := c in s.refs && c in s.frees && s.frees[c] == 0;
    s.(refs := s.refs[c := (if c in s.refs then s.refs[c] else 0) + delta],
       wentWrong := s.wentWrong || !live)
  }

  function Free(s: State, c: Conn): State {
    var times := if c in s.frees then s.frees[c] else 0;
    s.(frees := s.frees[c := times + 1], wentWrong := s.wentWrong || times > 0)
  }

  function Resume(next: Then): Phase {
    match next
    case StoreIn(x, incoming) => Storing(x, incoming)
    case Return => Idle
  }

  function Subtracting(s: State, t: Thread, c: Conn, next: Then): State {
    var previous := if c in s.refs then s.refs[c] else 0;
    AddTo(s, c, -1).(phase := s.phase[t := Subtracted(c, previous, next)])
  }

  function DoCreate(s: State, x: Cell, c: Conn): State {
    s.(cells := s.cells[x := Some(c)], refs := s.refs[c := 1], frees := s.frees[c := 0])
  }

  function DoSet(s: State, t: Thread, x: Cell, incoming: Option<Conn>): State
    requires x in s.cells
  {
    if s.cells[x] == incoming then s
    else
      var s' := if incoming.Some? then AddTo(s, incoming.value, 1) else s;
      s'.(phase := s.phase[t := Counted(x, s.cells[x], incoming)])
  }

  function DoTake(s: State, t: Thread, x: Cell): State
    requires x in s.cells && s.cells[x].Some?
  {
    s.(cells := s.cells[x := None], phase := s.phase[t := Letting(s.cells[x].value)])
  }

  function DoSubtract(s: State, t: Thread): State
    requires t in s.phase && (s.phase[t].Counted? || s.phase[t].Letting?)
  {
    match s.phase[t]
    case Counted(x, outgoing, incoming) =>
      if outgoing.None? then s.(phase := s.phase[t := Storing(x, incoming)])
      else Subtracting(s, t, outgoing.value, StoreIn(x, incoming))
    case Letting(c) => Subtracting(s, t, c, Return)
  }

  function DoAct(s: State, t: Thread): State
    requires t in s.phase && s.phase[t].Subtracted?
  {
    var p := s.phase[t];
    var s' :=
      if p.previous > 1 then s
      else if p.previous < 1 then AddTo(s, p.conn, 1).(wentWrong := true)
      else Free(s, p.conn);
    s'.(phase := s.phase[t := Resume(p.next)])
  }

  function DoStore(s: State, t: Thread): State
    requires t in s.phase && s.phase[t].Storing?
  {
    s.(cells := s.cells[s.phase[t].cell := s.phase[t].incoming], phase := s.phase[t := Idle])
  }

  function DoHand(s: State, x: Cell, to: Thread): State {
    s.(owner := s.owner[x := to])
  }

  function Apply(s: State, step: Step): State
    requires Enabled(s, step)
  {
    match step
    case Create(_, x, c) => DoCreate(s, x, c)
    case Set(t, x, incoming, _) => DoSet(s, t, x, incoming)
    case Take(t, x) => DoTake(s, t, x)
    case Subtract(t) => DoSubtract(s, t)
    case Act(t) => DoAct(s, t)
    case Store(t) => DoStore(s, t)
    case Hand(_, x, to) => DoHand(s, x, to)
  }

  // ----- holders --------------------------------------------------------

  datatype Holder = InCell(x: Cell) | InFlight(t: Thread)

  /** The thread at this phase has already dropped cell x's reference. */
  predicate Past(p: Phase, x: Cell) {
    match p
    case Subtracted(_, _, StoreIn(y, _)) => x == y
    case Storing(y, _) => x == y
    case _ => false
  }

  predicate CellHolds(s: State, x: Cell, c: Conn) {
    && x in s.cells && s.cells[x] == Some(c)
    && !(x in s.owner && s.owner[x] in s.phase && Past(s.phase[s.owner[x]], x))
  }

  /** The thread at this phase carries a counted reference of its own. */
  predicate Carries(p: Phase, c: Conn) {
    match p
    case Counted(_, _, incoming) => incoming == Some(c)
    case Letting(d) => c == d
    case Subtracted(_, _, StoreIn(_, incoming)) => incoming == Some(c)
    case Storing(_, incoming) => incoming == Some(c)
    case _ => false
  }

  predicate Holds(s: State, h: Holder, c: Conn) {
    match h
    case InCell(x) => CellHolds(s, x, c)
    case InFlight(t) => t in s.phase && Carries(s.phase[t], c)
  }

  function Places(s: State): set<Holder> {
    PlacesOf(s.cells.Keys, s.phase.Keys)
  }

  function PlacesOf(cells: set<Cell>, threads: set<Thread>): set<Holder> {
    (set x | x in cells :: InCell(x)) + (set t | t in threads :: InFlight(t))
  }

  /** Every reference to a connection: stored in a cell or in flight. */
  function Holders(s: State, c: Conn): set<Holder> {
    set h | h in Places(s) && Holds(s, h, c)
  }

  predicate IsFreeing(p: Phase, c: Conn) {
    p.Subtracted? && p.conn == c && p.previous == 1
  }

  /** The threads about to free a connection. */
  function Freeing(s: State, c: Conn): set<Thread> {
    set t | t in s.phase && IsFreeing(s.phase[t], c)
  }

  // ----- the invariant --------------------------------------------------

  /** What a thread's phase says about its cell. */
  ghost predicate PhaseOk(s: State, t: Thread, p: Phase) {
    match p
    case Counted(x, outgoing, incoming) => Owns(s, t, x) && s.cells[x] == outgoing && outgoing != incoming
    case Subtracted(_, previous, next) => previous >= 1 && (next.StoreIn? ==> Owns(s, t, next.cell))
    case Storing(x, _) => Owns(s, t, x)
    case _ => true
  }

  ghost predicate Owns(s: State, t: Thread, x: Cell) {
    x in s.cells && x in s.owner && s.owner[x] == t
  }

  /** Cells have one owner each and phases speak of the owner's cells. */
  ghost predicate Shape(s: State) {
    && s.owner.Keys == s.cells.Keys
    && (forall x :: x in s.owner ==> s.owner[x] in s.phase)
    && (forall t :: t in s.phase ==> PhaseOk(s, t, s.phase[t]))
  }

  /** A connection with a holder is counted exactly and nobody frees it; one
      with none is being freed, or was freed once. */
  ghost predicate ConnOk(s: State, c: Conn) {
    if c in s.refs && c in s.frees then
      && s.refs[c] == |Holders(s, c)|
      && |Freeing(s, c)| + s.frees[c] == if Holders(s, c) == {} then 1 else 0
    else
      c !in s.refs && c !in s.frees && Holders(s, c) == {} && Freeing(s, c) == {}
  }

  ghost predicate Inv(s: State) {
    !s.wentWrong && Shape(s) && forall c :: ConnOk(s, c)
  }

  // ----- how a step moves the holders -----------------------------------

  lemma SamePlaces(s: State, step: Step)
    requires Enabled(s, step) && Shape(s)
    ensures Apply(s, step).cells.Keys == s.cells.Keys && Apply(s, step).phase.Keys == s.phase.Keys
  {
    if step.Store? {
      assert PhaseOk(s, step.t, s.phase[step.t]);
    }
    hide Shape, PhaseOk;
  }

  /** One holder more, one fewer, one for another, or the same. */
  ghost predicate Moves(s: State, s': State, c: Conn, off: set<Holder>, on: set<Holder>) {
    && off <= Holders(s, c) && on !! Holders(s, c)
    && Holders(s', c) == (Holders(s, c) - off) + on
  }

  lemma MovesBy(s: State, s': State, c: Conn, off: set<Holder>, on: set<Holder>)
    requires Places(s') == Places(s)
    requires forall h :: h in off ==> h in Places(s) && Holds(s, h, c)
    requires forall h :: h in on ==> h in Places(s) && !Holds(s, h, c)
    requires forall h :: h in Places(s) ==> (Holds(s', h, c) <==> (Holds(s, h, c) && h !in off) || h in on)
    ensures Moves(s, s', c, off, on)
  {
  }

  function When<T>(b: bool, x: T): set<T> {
    if b then {x} else {}
  }

  lemma CreateMoves(s: State, t: Thread, x: Cell, c0: Conn, c: Conn)
    requires Shape(s) && Enabled(s, Create(t, x, c0))
    ensures Moves(s, DoCreate(s, x, c0), c, {}, When(c == c0, InCell(x)))
  {
    MovesBy(s, DoCreate(s, x, c0), c, {}, When(c == c0, InCell(x)));
  }

  lemma SetMoves(s: State, t: Thread, x: Cell, v: Option<Conn>, from: Cell, c: Conn)
    requires Shape(s) && Enabled(s, Set(t, x, v, from)) && s.cells[x] != v
    ensures Moves(s, DoSet(s, t, x, v), c, {}, When(v == Some(c), InFlight(t)))
    ensures v == Some(c) ==> InCell(from) in Holders(s, c)
  {
    MovesBy(s, DoSet(s, t, x, v), c, {}, When(v == Some(c), InFlight(t)));
  }

  lemma TakeMoves(s: State, t: Thread, x: Cell, c: Conn)
    requires Shape(s) && Enabled(s, Take(t, x))
    ensures Moves(s, DoTake(s, t, x), c,
                  When(s.cells[x] == Some(c), InCell(x)), When(s.cells[x] == Some(c), InFlight(t)))
  {
    MovesBy(s, DoTake(s, t, x), c,
            When(s.cells[x] == Some(c), InCell(x)), When(s.cells[x] == Some(c), InFlight(t)));
  }

  /** The holder a thread's fetch_sub gives up. */
  function Dropping(p: Phase, t: Thread, c: Conn): set<Holder> {
    match p
    case Counted(x, outgoing, _) => When(outgoing == Some(c), InCell(x))
    case Letting(d) => When(c == d, InFlight(t))
    case _ => {}
  }

  lemma LettingMoves(s: State, t: Thread, c: Conn)
    requires Shape(s) && Enabled(s, Subtract(t)) && s.phase[t].Letting?
    ensures Moves(s, DoSubtract(s, t), c, Dropping(s.phase[t], t, c), {})
  {
    MovesBy(s, DoSubtract(s, t), c, Dropping(s.phase[t], t, c), {});
  }

  lemma CountedMoves(s: State, t: Thread, c: Conn)
    requires Shape(s) && Enabled(s, Subtract(t)) && s.phase[t].Counted?
    ensures Moves(s, DoSubtract(s, t), c, Dropping(s.phase[t], t, c), {})
  {
    assert PhaseOk(s, t, s.phase[t]);
    hide PhaseOk;
    MovesBy(s, DoSubtract(s, t), c, Dropping(s.phase[t], t, c), {});
  }

  lemma SubtractMoves(s: State, t: Thread, c: Conn)
    requires Shape(s) && Enabled(s, Subtract(t))
    ensures Moves(s, DoSubtract(s, t), c, Dropping(s.phase[t], t, c), {})
  {
    hide Moves, Shape, Dropping;
    if s.phase[t].Letting? {
      LettingMoves(s, t, c);
    } else {
      CountedMoves(s, t, c);
    }
  }

  lemma ActMoves(s: State, t: Thread, c: Conn)
    requires Shape(s) && Enabled(s, Act(t))
    ensures Moves(s, DoAct(s, t), c, {}, {})
  {
    MovesBy(s, DoAct(s, t), c, {}, {});
  }

  lemma StoreMoves(s: State, t: Thread, c: Conn)
    requires Shape(s) && Enabled(s, Store(t))
    ensures var p := s.phase[t];
      Moves(s, DoStore(s, t), c,
            When(p.incoming == Some(c), InFlight(t)), When(p.incoming == Some(c), InCell(p.cell)))
  {
    var p := s.phase[t];
    assert PhaseOk(s, t, p);
    MovesBy(s, DoStore(s, t), c,
            When(p.incoming == Some(c), InFlight(t)), When(p.incoming == Some(c), InCell(p.cell)));
  }

  lemma HandMoves(s: State, t: Thread, x: Cell, to: Thread, c: Conn)
    requires Shape(s) && Enabled(s, Hand(t, x, to))
    ensures Moves(s, DoHand(s, x, to), c, {}, {})
  {
    assert PhaseOk(s, to, s.phase[to]);
    MovesBy(s, DoHand(s, x, to), c, {}, {});
  }

  lemma MovesCount(s: State, s': State, c: Conn, off: set<Holder>, on: set<Holder>)
    requires Moves(s, s', c, off, on)
    ensures |Holders(s', c)| == |Holders(s, c)| - |off| + |on|
  {
    assert |Holders(s, c) - off| == |Holders(s, c)| - |off|;
  }

  // ----- the shape is kept ----------------------------------------------

  ghost predicate Live(s: State, c: Conn) {
    c in s.refs && c in s.frees && s.refs[c] >= 1 && s.frees[c] == 0
  }

  /** A connection somebody holds is allocated, counted and not freed. */
  lemma HeldIsLive(s: State, c: Conn, h: Holder)
    requires ConnOk(s, c) && h in Places(s) && Holds(s, h, c)
    ensures Live(s, c) && Freeing(s, c) == {}
  {
    assert h in Holders(s, c);
  }

  /** The connection a thread's fetch_sub is about to touch. */
  function Subject(p: Phase): Option<Conn> {
    match p
    case Counted(_, outgoing, _) => outgoing
    case Letting(c) => Some(c)
    case _ => None
  }

  /** The thread's own reference is still counted when it subtracts. */
  lemma SubjectIsLive(s: State, t: Thread)
    requires Inv(s) && Enabled(s, Subtract(t)) && Subject(s.phase[t]).Some?
    ensures Live(s, Subject(s.phase[t]).value) && Freeing(s, Subject(s.phase[t]).value) == {}
  {
    var p := s.phase[t];
    assert PhaseOk(s, t, p);
    HeldIsLive(s, Subject(p).value, if p.Letting? then InFlight(t) else InCell(p.cell));
  }

  /** What a phase says depends on the thread's own cells only. */
  lemma PhaseFrame(s: State, s': State, t: Thread, p: Phase)
    requires PhaseOk(s, t, p)
    requires forall x :: Owns(s, t, x) ==> Owns(s', t, x) && s'.cells[x] == s.cells[x]
    ensures PhaseOk(s', t, p)
  {
  }

  lemma OthersCells(s: State, step: Step, t: Thread, x: Cell)
    requires Shape(s) && Enabled(s, step) && t != step.t && Owns(s, t, x)
    ensures Owns(Apply(s, step), t, x) && Apply(s, step).cells[x] == s.cells[x]
  {
    if step.Store? {
      assert PhaseOk(s, step.t, s.phase[step.t]);
    }
    hide Shape, PhaseOk;
  }

  lemma OthersKept(s: State, step: Step, t: Thread)
    requires Shape(s) && Enabled(s, step) && t in s.phase && t != step.t
    ensures t in Apply(s, step).phase && Apply(s, step).phase[t] == s.phase[t]
    ensures PhaseOk(Apply(s, step), t, s.phase[t])
  {
    assert PhaseOk(s, t, s.phase[t]);
    forall x | Owns(s, t, x)
      ensures Owns(Apply(s, step), t, x) && Apply(s, step).cells[x] == s.cells[x]
    {
      OthersCells(s, step, t, x);
    }
    hide Shape, PhaseOk, Owns;
    PhaseFrame(s, Apply(s, step), t, s.phase[t]);
  }

  lemma OwnKept(s: State, step: Step)
    requires Shape(s) && Enabled(s, step) && step.t in s.phase
    requires step.Subtract? && Subject(s.phase[step.t]).Some? ==> Live(s, Subject(s.phase[step.t]).value)
    ensures step.t in Apply(s, step).phase
    ensures PhaseOk(Apply(s, step), step.t, Apply(s, step).phase[step.t])
  {
    assert PhaseOk(s, step.t, s.phase[step.t]);
  }

  lemma StepShape(s: State, step: Step)
    requires Inv(s) && Enabled(s, step)
    ensures Shape(Apply(s, step))
  {
    hide ConnOk, PhaseOk;
    SamePlaces(s, step);
    if step.Subtract? && Subject(s.phase[step.t]).Some? {
      SubjectIsLive(s, step.t);
    }
    OwnKept(s, step);
    forall t | t in s.phase && t != step.t
      ensures Apply(s, step).phase[t] == s.phase[t] && PhaseOk(Apply(s, step), t, s.phase[t])
    {
      OthersKept(s, step, t);
    }
  }

  // ----- each connection stays accounted for ----------------------------

  lemma CreateOk(s: State, t: Thread, x: Cell, c0: Conn, c: Conn)
    requires Inv(s) && Enabled(s, Create(t, x, c0))
    ensures ConnOk(DoCreate(s, x, c0), c)
  {
    var s' := DoCreate(s, x, c0);
    assert ConnOk(s, c);
    CreateMoves(s, t, x, c0, c);
    assert Freeing(s', c) == Freeing(s, c);
  }

  lemma SetRefs(s: State, t: Thread, x: Cell, v: Option<Conn>, c: Conn)
    requires x in s.cells && s.cells[x] != v && t in s.phase && s.phase[t].Idle? && !s.wentWrong
    requires v.Some? ==> Live(s, v.value)
    ensures var s' := DoSet(s, t, x, v);
      && !s'.wentWrong && s'.frees == s.frees && s'.refs.Keys == s.refs.Keys
      && (c in s.refs && c in s'.refs ==> s'.refs[c] == s.refs[c] + if v == Some(c) then 1 else 0)
      && Freeing(s', c) == Freeing(s, c)
  {
  }

  lemma SetOk(s: State, t: Thread, x: Cell, v: Option<Conn>, from: Cell, c: Conn)
    requires Inv(s) && Enabled(s, Set(t, x, v, from)) && s.cells[x] != v
    ensures ConnOk(DoSet(s, t, x, v), c)
    ensures !DoSet(s, t, x, v).wentWrong
  {
    var s' := DoSet(s, t, x, v);
    if v.Some? {
      HeldIsLive(s, v.value, InCell(from));
    }
    hide Holders, Freeing, Shape, DoSet;
    assert ConnOk(s, c);
    SetMoves(s, t, x, v, from, c);
    MovesCount(s, s', c, {}, When(v == Some(c), InFlight(t)));
    SetRefs(s, t, x, v, c);
  }

  lemma TakeRefs(s: State, t: Thread, x: Cell, c: Conn)
    requires Enabled(s, Take(t, x))
    ensures var s' := DoTake(s, t, x);
      s'.refs == s.refs && s'.frees == s.frees && Freeing(s', c) == Freeing(s, c)
  {
  }

  lemma TakeOk(s: State, t: Thread, x: Cell, c: Conn)
    requires Inv(s) && Enabled(s, Take(t, x))
    ensures ConnOk(DoTake(s, t, x), c)
  {
    hide Holders, Freeing, Shape, DoTake;
    var s' := DoTake(s, t, x);
    assert ConnOk(s, c);
    TakeRefs(s, t, x, c);
    TakeMoves(s, t, x, c);
    MovesCount(s, s', c, When(s.cells[x] == Some(c), InCell(x)), When(s.cells[x] == Some(c), InFlight(t)));
  }

  lemma SubtractFreeing(s: State, t: Thread, c: Conn)
    requires Enabled(s, Subtract(t))
    ensures Freeing(DoSubtract(s, t), c) ==
            Freeing(s, c) + When(Subject(s.phase[t]) == Some(c) && c in s.refs && s.refs[c] == 1, t)
    ensures t !in Freeing(s, c)
  {
    var s' := DoSubtract(s, t);
    forall u | u in s.phase && u != t
      ensures s'.phase[u] == s.phase[u]
    {
    }
  }

  lemma SubtractRefs(s: State, t: Thread, c: Conn)
    requires Enabled(s, Subtract(t)) && !s.wentWrong
    requires Subject(s.phase[t]).Some? ==> Live(s, Subject(s.phase[t]).value)
    ensures var s' := DoSubtract(s, t);
      && !s'.wentWrong && s'.frees == s.frees && s'.refs.Keys == s.refs.Keys
      && (c in s.refs && c in s'.refs ==> s'.refs[c] == s.refs[c] - if Subject(s.phase[t]) == Some(c) then 1 else 0)
  {
  }

  lemma SubtractOk(s: State, t: Thread, c: Conn)
    requires Inv(s) && Enabled(s, Subtract(t))
    ensures ConnOk(DoSubtract(s, t), c)
    ensures !DoSubtract(s, t).wentWrong
  {
    hide Holders, Freeing, Shape, DoSubtract;
    var s', p := DoSubtract(s, t), s.phase[t];
    assert ConnOk(s, c);
    SubtractMoves(s, t, c);
    MovesCount(s, s', c, Dropping(p, t, c), {});
    SubtractFreeing(s, t, c);
    if Subject(p).Some? {
      SubjectIsLive(s, t);
    }
    SubtractRefs(s, t, c);
    assert |Dropping(p, t, c)| == if Subject(p) == Some(c) then 1 else 0;
    assert Holders(s', c) == {} <==> |Holders(s', c)| == 0;
  }

  lemma ActFreeing(s: State, t: Thread, c: Conn)
    requires Enabled(s, Act(t))
    ensures Freeing(DoAct(s, t), c) == Freeing(s, c) - {t}
    ensures t in Freeing(s, c) <==> s.phase[t].conn == c && s.phase[t].previous == 1
  {
    var s' := DoAct(s, t);
    forall u | u in s.phase && u != t
      ensures s'.phase[u] == s.phase[u]
    {
    }
  }

  lemma ActRefs(s: State, t: Thread)
    requires Enabled(s, Act(t)) && !s.wentWrong && s.phase[t].previous >= 1
    requires s.phase[t].previous == 1 ==> s.phase[t].conn in s.frees && s.frees[s.phase[t].conn] == 0
    ensures var s', p := DoAct(s, t), s.phase[t];
      && !s'.wentWrong && s'.refs == s.refs
      && s'.frees == if p.previous == 1 then s.frees[p.conn := 1] else s.frees
  {
  }

  /** A thread about to free is the only one, and nothing was freed before. */
  lemma ActClean(s: State, t: Thread)
    requires Inv(s) && Enabled(s, Act(t))
    ensures s.phase[t].previous >= 1
    ensures s.phase[t].previous == 1 ==> s.phase[t].conn in s.frees && s.frees[s.phase[t].conn] == 0
  {
    var p := s.phase[t];
    assert PhaseOk(s, t, p);
    assert ConnOk(s, p.conn);
    if p.previous == 1 {
      ActFreeing(s, t, p.conn);
      assert t in Freeing(s, p.conn);
      hide Holders, Freeing, Shape;
      assert |Freeing(s, p.conn)| >= 1;
    }
  }

  lemma ActOk(s: State, t: Thread, c: Conn)
    requires Inv(s) && Enabled(s, Act(t))
    ensures ConnOk(DoAct(s, t), c)
    ensures !DoAct(s, t).wentWrong
  {
    hide Holders, Freeing, DoAct, Shape;
    var s', p := DoAct(s, t), s.phase[t];
    assert ConnOk(s, c);
    ActMoves(s, t, c);
    ActFreeing(s, t, c);
    ActClean(s, t);
    ActRefs(s, t);
    if t in Freeing(s, c) {
      assert |Freeing(s, c) - {t}| == |Freeing(s, c)| - 1;
    } else {
      assert Freeing(s, c) - {t} == Freeing(s, c);
    }
  }

  lemma StoreRefs(s: State, t: Thread, c: Conn)
    requires Enabled(s, Store(t))
    ensures var s' := DoStore(s, t);
      s'.refs == s.refs && s'.frees == s.frees && Freeing(s', c) == Freeing(s, c)
  {
  }

  lemma StoreOk(s: State, t: Thread, c: Conn)
    requires Inv(s) && Enabled(s, Store(t))
    ensures ConnOk(DoStore(s, t), c)
  {
    hide Holders, Freeing, Shape, DoStore;
    var s', p := DoStore(s, t), s.phase[t];
    assert ConnOk(s, c);
    StoreRefs(s, t, c);
    StoreMoves(s, t, c);
    MovesCount(s, s', c, When(p.incoming == Some(c), InFlight(t)), When(p.incoming == Some(c), InCell(p.cell)));
  }

  lemma HandOk(s: State, t: Thread, x: Cell, to: Thread, c: Conn)
    requires Inv(s) && Enabled(s, Hand(t, x, to))
    ensures ConnOk(DoHand(s, x, to), c)
  {
    assert ConnOk(s, c);
    HandMoves(s, t, x, to, c);
    assert Freeing(DoHand(s, x, to), c) == Freeing(s, c);
  }

  lemma StepOk(s: State, step: Step, c: Conn)
    requires Inv(s) && Enabled(s, step)
    ensures ConnOk(Apply(s, step), c) && !Apply(s, step).wentWrong
  {
    hide ConnOk, Shape;
    match step
    case Create(t, x, c0) => CreateOk(s, t, x, c0, c);
    case Set(t, x, v, from) => if s.cells[x] != v { SetOk(s, t, x, v, from, c); } else { assert ConnOk(s, c); }
    case Take(t, x) => TakeOk(s, t, x, c);
    case Subtract(t) => SubtractOk(s, t, c);
    case Act(t) => ActOk(s, t, c);
    case Store(t) => StoreOk(s, t, c);
    case Hand(t, x, to) => HandOk(s, t, x, to, c);
  }

  /** Every atomic step of every thread keeps the counts exact. */
  lemma StepKeepsInv(s: State, step: Step)
    requires Inv(s) && Enabled(s, step)
    ensures Inv(Apply(s, step))
  {
    hide ConnOk, Shape;
    StepShape(s, step);
    StepOk(s, step, 0);
    forall c
      ensures ConnOk(Apply(s, step), c)
    {
      StepOk(s, step, c);
    }
  }

  // ----- whole runs -----------------------------------------------------

  /** Nothing allocated, every cell empty and owned, every thread idle. */
  predicate Init(s: State) {
    && !s.wentWrong && s.refs == map[] && s.frees == map[]
    && s.owner.Keys == s.cells.Keys
    && (forall x :: x in s.cells ==> s.cells[x].None? && s.owner[x] in s.phase)
    && (forall t :: t in s.phase ==> s.phase[t].Idle?)
  }

  /** A run: each step is enabled where it is taken. */
  predicate IsRun(s: State, steps: seq<Step>)
    decreases steps
  {
    steps == [] || (Enabled(s, steps[0]) && IsRun(Apply(s, steps[0]), steps[1..]))
  }

  function End(s: State, steps: seq<Step>): State
    requires IsRun(s, steps)
    decreases steps
  {
    if steps == [] then s else End(Apply(s, steps[0]), steps[1..])
  }

  lemma InitInv(s: State)
    requires Init(s)
    ensures Inv(s)
  {
    forall c
      ensures Holders(s, c) == {} && Freeing(s, c) == {}
    {
    }
  }

  lemma {:induction false} RunKeepsInv(s: State, steps: seq<Step>)
    requires Inv(s) && IsRun(s, steps)
    ensures Inv(End(s, steps))
    decreases steps
  {
    if steps != [] {
      StepKeepsInv(s, steps[0]);
      RunKeepsInv(Apply(s, steps[0]), steps[1..]);
    }
  }

  /** In every interleaving from the start: no freed connection is touched and
      the underflow branch never runs; the count of every connection is the
      number of its holders; a connection is freed at most once, and only when
      nobody holds it. */
  lemma CountsAreExact(s: State, steps: seq<Step>, c: Conn)
    requires Init(s) && IsRun(s, steps) && c in End(s, steps).refs
    ensures var e := End(s, steps);
      && !e.wentWrong && c in e.frees
      && e.refs[c] == |Holders(e, c)|
      && e.frees[c] <= 1
      && (e.frees[c] == 1 ==> Holders(e, c) == {} && Freeing(e, c) == {})
  {
    InitInv(s);
    RunKeepsInv(s, steps);
    assert ConnOk(End(s, steps), c);
  }

  /** Once every thread is idle, a connection was freed exactly once if no cell
      holds it and not at all otherwise. */
  lemma FreedExactlyOnce(s: State, steps: seq<Step>, c: Conn)
    requires Init(s) && IsRun(s, steps) && c in End(s, steps).refs
    requires forall t :: t in End(s, steps).phase ==> End(s, steps).phase[t].Idle?
    ensures var e := End(s, steps);
      && c in e.frees
      && e.frees[c] == if exists x :: x in e.cells && e.cells[x] == Some(c) then 0 else 1
  {
    var e := End(s, steps);
    InitInv(s);
    RunKeepsInv(s, steps);
    assert ConnOk(e, c);
    assert Freeing(e, c) == {};
    if x :| x in e.cells && e.cells[x] == Some(c) {
      assert InCell(x) in Holders(e, c);
    } else {
      assert Holders(e, c) == {};
    }
  }

  lemma RunStep(s: State, step: Step, rest: seq<Step>)
    requires Enabled(s, step) && IsRun(Apply(s, step), rest)
    ensures IsRun(s, [step] + rest) && End(s, [step] + rest) == End(Apply(s, step), rest)
  {
    assert ([step] + rest)[1..] == rest;
  }

  /** The shortest life of a connection: the pool creates it, empties its slot
      and lets go, which frees it. */
  lemma OneLife(x: Cell, t: Thread, c: Conn)
    ensures var s := State(map[x := None], map[x := t], map[t := Idle], map[], map[], false);
      var steps := [Create(t, x, c)] + ([Take(t, x)] + ([Subtract(t)] + ([Act(t)] + [])));
      Init(s) && IsRun(s, steps) && End(s, steps).refs == map[c := 0] && End(s, steps).frees == map[c := 1]
  {
    var s := State(map[x := None], map[x := t], map[t := Idle], map[], map[], false);
    var created := Apply(s, Create(t, x, c));
    var taken := Apply(created, Take(t, x));
    var subtracted := Apply(taken, Subtract(t));
    assert subtracted.phase[t] == Subtracted(c, 1, Return);
    RunStep(subtracted, Act(t), []);
    RunStep(taken, Subtract(t), [Act(t)] + []);
    RunStep(created, Take(t, x), [Subtract(t)] + ([Act(t)] + []));
    RunStep(s, Create(t, x, c), [Take(t, x)] + ([Subtract(t)] + ([Act(t)] + [])));
  }
}
