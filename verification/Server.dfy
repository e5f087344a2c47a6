/** The send-keys socket server as a machine of interleaved steps: one acceptor
    goroutine, one goroutine per accepted connection, and any number of Close
    callers, over a counting semaphore, a WaitGroup and a sync.Once. Each label
    of `Step` is one operation that other goroutines can interleave with. */
module Server {
  import opened Sums

  /** Capacity of the semaphore channel. */
  const MAX_CONCURRENT := 16

  /** Where the acceptor goroutine stands; `conn` numbers the connection it holds. */
  datatype Acceptor =
    | Accepting
    | Acquiring(conn: nat)  // about to send on the semaphore channel
    | Adding(conn: nat)     // about to raise the WaitGroup
    | Spawning(conn: nat)   // about to start the handler goroutine
    | Exiting               // Accept failed; the deferred Done is next
    | Exited

  /** Where a handler goroutine stands. */
  datatype Pc = Decoding | Calling | Replying | Releasing | Finishing | Ended

  datatype Task = Task(conn: nat, pc: Pc)

  /** Where a caller of Close stands. */
  datatype Closer = AtOnce | InOnce | Waiting | Returned

  datatype Once = Fresh | Busy | Spent

  datatype State = State(
    listening: bool,
    acceptor: Acceptor,
    tasks: seq<Task>,
    sem: int,
    wg: int,
    once: Once,
    closers: seq<Closer>,
    callbacks: seq<nat>,  // per accepted connection: how often the callback was entered
    handled: seq<nat>     // per accepted connection: how often handleConn completed
  )

  datatype Step =
    | Accept
    | AcceptFails
    | Acquire
    | Add
    | Spawn
    | Leave
    | Decode(i: nat, ok: bool)
    | CallbackReturns(i: nat)
    | Reply(i: nat)
    | Release(i: nat)
    | Finish(i: nat)
    | CallClose
    | EnterOnce(k: nat)
    | CloseListener(k: nat)
    | SkipOnce(k: nat)
    | Wake(k: nat)

  /** The state ListenAndServe returns with: one Add, the acceptor started. */
  function Init(): State {
    State(true, Accepting, [], 0, 1, Fresh, [], [], [])
  }

  predicate TaskAt(s: State, i: nat, pc: Pc) {
    i < |s.tasks| && s.tasks[i].pc == pc
  }

  predicate CloserAt(s: State, k: nat, pc: Closer) {
    k < |s.closers| && s.closers[k] == pc
  }

  /** Which steps can be taken. Accept can fail at any time and must fail once the
      listener is closed; a send blocks on a full channel and a receive on an empty
      one; Wait returns when the counter is zero. */
  predicate Enabled(s: State, step: Step) {
    match step
    case Accept => s.acceptor == Accepting && s.listening
    case AcceptFails => s.acceptor == Accepting
    case Acquire => s.acceptor.Acquiring? && s.sem < MAX_CONCURRENT
    case Add => s.acceptor.Adding?
    case Spawn => s.acceptor.Spawning?
    case Leave => s.acceptor == Exiting
    case Decode(i, _) => TaskAt(s, i, Decoding)
    case CallbackReturns(i) => TaskAt(s, i, Calling)
    case Reply(i) => TaskAt(s, i, Replying)
    case Release(i) => TaskAt(s, i, Releasing) && s.sem > 0
    case Finish(i) => TaskAt(s, i, Finishing)
    case CallClose => true
    case EnterOnce(k) => CloserAt(s, k, AtOnce) && s.once == Fresh
    case CloseListener(k) => CloserAt(s, k, InOnce)
    case SkipOnce(k) => CloserAt(s, k, AtOnce) && s.once == Spent
    case Wake(k) => CloserAt(s, k, Waiting) && s.wg == 0
  }

  function Move(s: State, i: nat, pc: Pc): State
    requires i < |s.tasks|
  {
    s.(tasks := s.tasks[i := s.tasks[i].(pc := pc)])
  }

  function Bump(counts: seq<nat>, c: nat): seq<nat> {
    if c < |counts| then counts[c := counts[c] + 1] else counts
  }

  function Apply(s: State, step: Step): State
    requires Enabled(s, step)
  {
    match step
    case Accept =>
      s.(acceptor := Acquiring(|s.handled|), callbacks := s.callbacks + [0], handled := s.handled + [0])
    case AcceptFails => s.(acceptor := Exiting)
    case Acquire => s.(acceptor := Adding(s.acceptor.conn), sem := s.sem + 1)
    case Add => s.(acceptor := Spawning(s.acceptor.conn), wg := s.wg + 1)
    case Spawn => s.(acceptor := Accepting, tasks := s.tasks + [Task(s.acceptor.conn, Decoding)])
    case Leave => s.(acceptor := Exited, wg := s.wg - 1)
    case Decode(i, ok) =>
      if ok then Move(s, i, Calling).(callbacks := Bump(s.callbacks, s.tasks[i].conn)) else Move(s, i, Replying)
    case CallbackReturns(i) => Move(s, i, Replying)
    case Reply(i) => Move(s, i, Releasing).(handled := Bump(s.handled, s.tasks[i].conn))
    case Release(i) => Move(s, i, Finishing).(sem := s.sem - 1)
    case Finish(i) => Move(s, i, Ended).(wg := s.wg - 1)
    case CallClose => s.(closers := s.closers + [AtOnce])
    case EnterOnce(k) => s.(once := Busy, closers := s.closers[k := InOnce])
    case CloseListener(k) => s.(listening := false, once := Spent, closers := s.closers[k := Waiting])
    case SkipOnce(k) => s.(closers := s.closers[k := Waiting])
    case Wake(k) => s.(closers := s.closers[k := Returned])
  }

  /** `steps` leads from `s` to `t`. */
  ghost predicate Path(s: State, steps: seq<Step>, t: State)
    decreases |steps|
  {
    if steps == [] then s == t
    else Enabled(s, steps[0]) && Path(Apply(s, steps[0]), steps[1..], t)
  }

  ghost predicate Reachable(s: State) {
    exists steps :: Path(Init(), steps, s)
  }

  // ----- accounting

  predicate HoldsSlot(t: Task) {
    t.pc in {Decoding, Calling, Replying, Releasing}
  }

  function Slot(t: Task): nat { if HoldsSlot(t) then 1 else 0 }

  function Live(t: Task): nat { if t.pc == Ended then 0 else 1 }

  function InsideOnce(c: Closer): nat { if c == InOnce then 1 else 0 }

  /** Semaphore slots in use: the running handlers, and the one the acceptor has
      taken for a handler it has not started yet. */
  function SlotHolders(s: State): nat {
    Sum(Slot, s.tasks) + (if s.acceptor.Adding? || s.acceptor.Spawning? then 1 else 0)
  }

  /** Goroutines Close must wait for. */
  function LiveGoroutines(s: State): nat {
    Sum(Live, s.tasks)
    + (if s.acceptor.Exited? then 0 else 1)
    + (if s.acceptor.Spawning? then 1 else 0)
  }

  /** The acceptor holds a connection that has no handler yet. */
  predicate Holding(a: Acceptor) {
    a.Acquiring? || a.Adding? || a.Spawning?
  }

  predicate Served(pc: Pc) { pc in {Releasing, Finishing, Ended} }

  ghost predicate Accounted(s: State) {
    && s.sem == SlotHolders(s) <= MAX_CONCURRENT
    && s.wg == LiveGoroutines(s)
  }

  ghost predicate ConnectionsTracked(s: State) {
    && |s.callbacks| == |s.handled|
    && |s.handled| == |s.tasks| + (if Holding(s.acceptor) then 1 else 0)
    && (Holding(s.acceptor) ==> s.acceptor.conn == |s.tasks|)
    && (forall i | 0 <= i < |s.tasks| ::
          && s.tasks[i].conn == i
          && s.handled[i] == (if Served(s.tasks[i].pc) then 1 else 0)
          && s.callbacks[i] <= (if s.tasks[i].pc == Decoding then 0 else 1)
          && (s.tasks[i].pc == Calling ==> s.callbacks[i] == 1))
    && (forall i | |s.tasks| <= i < |s.handled| :: s.handled[i] == 0 && s.callbacks[i] == 0)
  }

  ghost predicate OnceConsistent(s: State) {
    && (s.once == Busy <==> Sum(InsideOnce, s.closers) == 1)
    && Sum(InsideOnce, s.closers) <= 1
    && (s.listening <==> s.once != Spent)
    && (forall k | 0 <= k < |s.closers| && s.closers[k] in {Waiting, Returned} :: s.once == Spent)
    && (forall k | 0 <= k < |s.closers| && s.closers[k] == Returned :: s.wg == 0)
  }

  ghost predicate Inv(s: State) {
    Accounted(s) && ConnectionsTracked(s) && OnceConsistent(s)
  }

  /** The effect on both counters' true values of moving one handler. */
  lemma MoveTask(s: State, i: nat, pc: Pc)
    requires i < |s.tasks|
    ensures SlotHolders(Move(s, i, pc)) == SlotHolders(s) - Slot(s.tasks[i]) + Slot(Task(0, pc))
    ensures LiveGoroutines(Move(s, i, pc)) == LiveGoroutines(s) - Live(s.tasks[i]) + Live(Task(0, pc))
  {
    SumUpdate(Slot, s.tasks, i, s.tasks[i].(pc := pc));
    SumUpdate(Live, s.tasks, i, s.tasks[i].(pc := pc));
  }

  lemma AccountedStep(s: State, step: Step)
    requires Inv(s) && Enabled(s, step)
    ensures Accounted(Apply(s, step))
  {
    hide ConnectionsTracked, OnceConsistent, Sum;
    match step
    case Spawn =>
      SumAppend(Slot, s.tasks, Task(s.acceptor.conn, Decoding));
      SumAppend(Live, s.tasks, Task(s.acceptor.conn, Decoding));
    case Decode(i, ok) => MoveTask(s, i, if ok then Calling else Replying);
    case CallbackReturns(i) => MoveTask(s, i, Replying);
    case Reply(i) => MoveTask(s, i, Releasing);
    case Release(i) => MoveTask(s, i, Finishing);
    case Finish(i) => MoveTask(s, i, Ended);
    case _ =>
  }

  /** Connections stay tracked when one handler moves and its counts move along. */
  lemma TrackedMove(s: State, i: nat, pc: Pc, callbacks: seq<nat>, handled: seq<nat>)
    requires ConnectionsTracked(s) && i < |s.tasks|
    requires callbacks == s.callbacks || (s.tasks[i].pc == Decoding && callbacks == Bump(s.callbacks, s.tasks[i].conn))
    requires handled == if Served(pc) && !Served(s.tasks[i].pc) then Bump(s.handled, s.tasks[i].conn) else s.handled
    requires pc == Calling ==> s.tasks[i].pc == Decoding && callbacks == Bump(s.callbacks, s.tasks[i].conn)
    requires pc != Decoding && (Served(s.tasks[i].pc) ==> Served(pc))
    ensures ConnectionsTracked(Move(s, i, pc).(callbacks := callbacks, handled := handled))
  {
  }

  /** They stay tracked while the same connection is held, or none. */
  lemma TrackedHold(s: State, t: State)
    requires ConnectionsTracked(s)
    requires Holding(t.acceptor) <==> Holding(s.acceptor)
    requires Holding(s.acceptor) ==> t.acceptor.conn == s.acceptor.conn
    requires t.tasks == s.tasks && t.callbacks == s.callbacks && t.handled == s.handled
    ensures ConnectionsTracked(t)
  {
  }

  /** A connection accepted is tracked, and so is one handed to its handler. */
  lemma TrackedAccept(s: State, step: Step)
    requires ConnectionsTracked(s) && Enabled(s, step) && (step.Accept? || step.Spawn?)
    ensures ConnectionsTracked(Apply(s, step))
  {
  }

  lemma ConnectionsStep(s: State, step: Step)
    requires ConnectionsTracked(s) && Enabled(s, step)
    ensures ConnectionsTracked(Apply(s, step))
  {
    hide ConnectionsTracked;
    match step
    case Accept => TrackedAccept(s, step);
    case Spawn => TrackedAccept(s, step);
    case Decode(i, ok) => TrackedMove(s, i, if ok then Calling else Replying, Apply(s, step).callbacks, s.handled);
    case CallbackReturns(i) => TrackedMove(s, i, Replying, s.callbacks, s.handled);
    case Reply(i) => TrackedMove(s, i, Releasing, s.callbacks, Apply(s, step).handled);
    case Release(i) =>
      TrackedMove(s, i, Finishing, s.callbacks, s.handled);
      TrackedHold(Move(s, i, Finishing), Apply(s, step));
    case Finish(i) =>
      TrackedMove(s, i, Ended, s.callbacks, s.handled);
      TrackedHold(Move(s, i, Ended), Apply(s, step));
    case _ => TrackedHold(s, Apply(s, step));
  }

  lemma OnceStep(s: State, step: Step)
    requires Inv(s) && Enabled(s, step)
    ensures OnceConsistent(Apply(s, step))
  {
    hide ConnectionsTracked, Sum;
    match step
    case CallClose => SumAppend(InsideOnce, s.closers, AtOnce);
    case EnterOnce(k) => SumUpdate(InsideOnce, s.closers, k, InOnce);
    case CloseListener(k) =>
      SumUpdate(InsideOnce, s.closers, k, Waiting);
    case SkipOnce(k) => SumUpdate(InsideOnce, s.closers, k, Waiting);
    case Wake(k) => SumUpdate(InsideOnce, s.closers, k, Returned);
    case Add => NeverRaisedFromZero(s);
    case Finish(i) => SumBounds(Live, s.tasks, i);
    case _ =>
  }

  lemma InvStep(s: State, step: Step)
    requires Inv(s) && Enabled(s, step)
    ensures Inv(Apply(s, step))
  {
    AccountedStep(s, step);
    ConnectionsStep(s, step);
    OnceStep(s, step);
  }

  /** Every interleaving keeps the accounting exact: the semaphore counts its slot
      holders and never passes 16, and the WaitGroup counts the goroutines alive. */
  lemma {:induction false} InvAlong(s: State, steps: seq<Step>, t: State)
    requires Inv(s) && Path(s, steps, t)
    ensures Inv(t)
    decreases |steps|
  {
    if steps != [] {
      InvStep(s, steps[0]);
      InvAlong(Apply(s, steps[0]), steps[1..], t);
    }
  }

  lemma ReachableInv(s: State)
    requires Reachable(s)
    ensures s.sem == SlotHolders(s) <= MAX_CONCURRENT
    ensures s.wg == LiveGoroutines(s)
    ensures Inv(s)
  {
    var steps :| Path(Init(), steps, s);
    InvAlong(Init(), steps, s);
  }

  /** The WaitGroup is raised only from a positive count (its documented rule), it
      is never driven below zero, and returning a slot never blocks. */
  lemma NeverRaisedFromZero(s: State)
    requires Inv(s)
    ensures Enabled(s, Add) ==> s.wg >= 1
    ensures Enabled(s, Leave) ==> s.wg >= 1
    ensures forall i :: TaskAt(s, i, Finishing) ==> s.wg >= 1
    ensures forall i :: TaskAt(s, i, Releasing) ==> Enabled(s, Release(i))
  {
    forall i | TaskAt(s, i, Finishing) ensures s.wg >= 1 {
      SumBounds(Live, s.tasks, i);
    }
    forall i | TaskAt(s, i, Releasing) ensures Enabled(s, Release(i)) {
      SumBounds(Slot, s.tasks, i);
    }
  }

  // ----- quiescence

  /** Nothing of the server runs any more. */
  ghost predicate Quiet(s: State) {
    && !s.listening
    && s.once == Spent
    && s.acceptor == Exited
    && (forall i | 0 <= i < |s.tasks| :: s.tasks[i].pc == Ended)
  }

  ghost predicate SomeCloseReturned(s: State) {
    exists k :: CloserAt(s, k, Returned)
  }

  predicate IsCloseStep(step: Step) {
    step.CallClose? || step.SkipOnce? || step.Wake?
  }

  lemma DrainedIsQuiet(s: State)
    requires Inv(s) && s.once == Spent && s.wg == 0
    ensures Quiet(s)
  {
    forall i | 0 <= i < |s.tasks| ensures s.tasks[i].pc == Ended {
      SumBounds(Live, s.tasks, i);
    }
  }

  /** Only further Close callers can move once the server is quiet. */
  lemma QuietStep(s: State, step: Step)
    requires Inv(s) && Quiet(s) && Enabled(s, step)
    ensures IsCloseStep(step) && Quiet(Apply(s, step))
    ensures Apply(s, step).tasks == s.tasks
    ensures Apply(s, step).handled == s.handled && Apply(s, step).callbacks == s.callbacks
  {
    if step.CloseListener? { SumBounds(InsideOnce, s.closers, step.k); }
  }

  lemma ReturnedMeansQuiet(s: State, k: nat)
    requires Inv(s) && CloserAt(s, k, Returned)
    ensures Quiet(s)
  {
    DrainedIsQuiet(s);
  }

  lemma {:induction false} QuietAlong(s: State, steps: seq<Step>, t: State)
    requires Inv(s) && Quiet(s) && Path(s, steps, t)
    ensures Quiet(t)
    ensures t.tasks == s.tasks && t.handled == s.handled && t.callbacks == s.callbacks
    ensures forall j | 0 <= j < |steps| :: IsCloseStep(steps[j])
    decreases |steps|
  {
    if steps != [] {
      QuietStep(s, steps[0]);
      InvStep(s, steps[0]);
      QuietAlong(Apply(s, steps[0]), steps[1..], t);
      forall j | 0 <= j < |steps| ensures IsCloseStep(steps[j]) {
        if j > 0 { assert steps[j] == steps[1..][j - 1]; }
      }
    }
  }

  /** Once any Close has returned, in every continuation: no handler and no acceptor
      step is ever taken again, no callback is entered, and every connection that
      was ever accepted has been handled exactly once. */
  lemma QuiescentAfterClose(s: State, steps: seq<Step>, t: State)
    requires Reachable(s) && SomeCloseReturned(s) && Path(s, steps, t)
    ensures forall j | 0 <= j < |steps| :: IsCloseStep(steps[j])
    ensures t.callbacks == s.callbacks && t.handled == s.handled
    ensures |t.handled| == |t.tasks| && forall c | 0 <= c < |t.handled| :: t.handled[c] == 1
    ensures Quiet(t)
  {
    ReachableInv(s);
    DrainedIsQuiet(s);
    QuietAlong(s, steps, t);
    InvAlong(s, steps, t);
  }

  /** A connection leads to at most one callback and at most one completed
      handleConn, at every moment of every run. */
  lemma AtMostOneCallback(s: State, c: nat)
    requires Reachable(s) && c < |s.handled|
    ensures c < |s.callbacks| && s.callbacks[c] <= 1 && s.handled[c] <= 1
  {
    ReachableInv(s);
  }

  // ----- progress after the listener is closed

  function TaskRank(t: Task): nat {
    match t.pc
    case Decoding => 5
    case Calling => 4
    case Replying => 3
    case Releasing => 2
    case Finishing => 1
    case Ended => 0
  }

  function CloserRank(c: Closer): nat {
    match c
    case AtOnce => 3
    case InOnce => 2
    case Waiting => 1
    case Returned => 0
  }

  function AcceptorRank(a: Acceptor): nat {
    match a
    case Acquiring(_) => 10
    case Adding(_) => 9
    case Spawning(_) => 8
    case Accepting => 2
    case Exiting => 1
    case Exited => 0
  }

  /** Drops on every step except the two that bring new work: a connection accepted
      and a Close called. */
  function Measure(s: State): nat {
    AcceptorRank(s.acceptor) + Sum(TaskRank, s.tasks) + Sum(CloserRank, s.closers)
  }

  lemma MeasureStep(s: State, step: Step)
    requires Enabled(s, step)
    ensures !s.listening ==> !step.Accept? && !Apply(s, step).listening
    ensures step.CallClose? ==> Measure(Apply(s, step)) == Measure(s) + 3
    ensures !step.CallClose? && !step.Accept? ==> Measure(Apply(s, step)) < Measure(s)
  {
    hide Sum;
    match step
    case Spawn => SumAppend(TaskRank, s.tasks, Task(s.acceptor.conn, Decoding));
    case Decode(i, ok) => SumUpdate(TaskRank, s.tasks, i, s.tasks[i].(pc := if ok then Calling else Replying));
    case CallbackReturns(i) => SumUpdate(TaskRank, s.tasks, i, s.tasks[i].(pc := Replying));
    case Reply(i) => SumUpdate(TaskRank, s.tasks, i, s.tasks[i].(pc := Releasing));
    case Release(i) => SumUpdate(TaskRank, s.tasks, i, s.tasks[i].(pc := Finishing));
    case Finish(i) => SumUpdate(TaskRank, s.tasks, i, s.tasks[i].(pc := Ended));
    case CallClose => SumAppend(CloserRank, s.closers, AtOnce);
    case EnterOnce(k) => SumUpdate(CloserRank, s.closers, k, InOnce);
    case CloseListener(k) => SumUpdate(CloserRank, s.closers, k, Waiting);
    case SkipOnce(k) => SumUpdate(CloserRank, s.closers, k, Waiting);
    case Wake(k) => SumUpdate(CloserRank, s.closers, k, Returned);
    case _ =>
  }

  function CloseCalls(steps: seq<Step>): nat {
    if steps == [] then 0 else (if steps[0].CallClose? then 1 else 0) + CloseCalls(steps[1..])
  }

  /** Every run after the listener is closed is finite: its length is bounded by the
      measure of its first state plus four steps per further Close call. */
  lemma {:induction false} RunsAreBounded(s: State, steps: seq<Step>, t: State)
    requires !s.listening && Path(s, steps, t)
    ensures |steps| + Measure(t) <= Measure(s) + 4 * CloseCalls(steps)
    decreases |steps|
  {
    if steps != [] {
      MeasureStep(s, steps[0]);
      RunsAreBounded(Apply(s, steps[0]), steps[1..], t);
    }
  }

  /** Every unfinished handler can take its next step, whatever the others do. */
  lemma HandlerCanStep(s: State, i: nat) returns (step: Step)
    requires Inv(s) && i < |s.tasks| && s.tasks[i].pc != Ended
    ensures Enabled(s, step)
    ensures step in {Decode(i, true), CallbackReturns(i), Reply(i), Release(i), Finish(i)}
  {
    NeverRaisedFromZero(s);
    match s.tasks[i].pc
    case Decoding => step := Decode(i, true);
    case Calling => step := CallbackReturns(i);
    case Replying => step := Reply(i);
    case Releasing => step := Release(i);
    case Finishing => step := Finish(i);
  }

  lemma SlotHolderCanStep(s: State) returns (i: nat, step: Step)
    requires Inv(s) && s.acceptor.Acquiring? && !Enabled(s, Acquire)
    ensures i < |s.tasks| && HoldsSlot(s.tasks[i]) && Enabled(s, step)
    ensures step in {Decode(i, true), CallbackReturns(i), Reply(i), Release(i)}
  {
    i := SumPositive(Slot, s.tasks);
    step := HandlerCanStep(s, i);
  }

  /** The acceptor is never stuck behind a full semaphore: some slot holder can step. */
  lemma FullSemaphoreDrains(s: State) returns (i: nat, step: Step)
    requires Reachable(s) && s.acceptor.Acquiring? && !Enabled(s, Acquire)
    ensures i < |s.tasks| && HoldsSlot(s.tasks[i]) && Enabled(s, step)
    ensures step in {Decode(i, true), CallbackReturns(i), Reply(i), Release(i)}
  {
    ReachableInv(s);
    i, step := SlotHolderCanStep(s);
  }

  /** Steps of the server itself, as opposed to a new caller of Close. */
  predicate IsWork(step: Step) { !step.CallClose? }

  /** A connection waiting for a slot: without an Acquire only boundedly many steps can
      be taken, whatever their order, and the wait goes on at their end. */
  lemma {:induction false} WaitIsBounded(s: State, steps: seq<Step>, t: State)
    requires s.acceptor.Acquiring? && Path(s, steps, t) && Acquire !in steps
    ensures t.acceptor == s.acceptor
    ensures |steps| + Measure(t) <= Measure(s) + 4 * CloseCalls(steps)
    decreases |steps|
  {
    if steps != [] {
      MeasureStep(s, steps[0]);
      assert steps[0] in steps && forall step | step in steps[1..] :: step in steps;
      WaitIsBounded(Apply(s, steps[0]), steps[1..], t);
    }
  }

  /** So every waiting connection gets its slot: a run that takes no Acquire is bounded,
      and one that cannot be extended by the server has taken it. */
  lemma SlotComesFree(s: State, steps: seq<Step>, t: State)
    requires Reachable(s) && s.acceptor.Acquiring? && Path(s, steps, t)
    ensures Acquire !in steps ==>
              && |steps| <= Measure(s) + 4 * CloseCalls(steps)
              && exists step :: Enabled(t, step) && IsWork(step) && !step.Accept?
    ensures (forall step :: Enabled(t, step) ==> !IsWork(step)) ==> Acquire in steps
  {
    if Acquire !in steps {
      WaitIsBounded(s, steps, t);
      ReachableInv(s);
      InvAlong(s, steps, t);
      if !Enabled(t, Acquire) {
        var i, step := SlotHolderCanStep(t);
        assert Enabled(t, step) && IsWork(step);
      } else {
        assert IsWork(Acquire);
      }
    }
  }

  // ----- sixteen handlers and a seventeenth connection

  lemma {:induction false} PathExtends(s: State, steps: seq<Step>, t: State, step: Step)
    requires Path(s, steps, t) && Enabled(t, step)
    ensures Path(s, steps + [step], Apply(t, step))
    decreases |steps|
  {
    if steps == [] {
      assert Path(Apply(s, step), [], Apply(s, step));
      assert [step][1..] == [];
    } else {
      PathExtends(Apply(s, steps[0]), steps[1..], t, step);
      assert (steps + [step])[1..] == steps[1..] + [step];
    }
  }

  lemma ReachableStep(s: State, step: Step) returns (t: State)
    requires Reachable(s) && Enabled(s, step)
    ensures Reachable(t) && t == Apply(s, step)
  {
    var steps :| Path(Init(), steps, s);
    PathExtends(Init(), steps, s, step);
    t := Apply(s, step);
  }

  /** `n` connections being decoded and nothing else going on. */
  ghost predicate Decoders(s: State, n: nat) {
    && s.listening && s.acceptor == Accepting && s.sem == n
    && |s.handled| == |s.tasks| == n
    && forall i | 0 <= i < n :: s.tasks[i].pc == Decoding
  }

  lemma {:induction false} ManyDecoders(n: nat) returns (s: State)
    requires n <= MAX_CONCURRENT
    ensures Reachable(s) && Decoders(s, n)
  {
    if n == 0 {
      s := Init();
      assert Path(Init(), [], s);
    } else {
      s := ManyDecoders(n - 1);
      s := ReachableStep(s, Accept);
      s := ReachableStep(s, Acquire);
      s := ReachableStep(s, Add);
      s := ReachableStep(s, Spawn);
    }
  }

  /** With sixteen connections open a further one is accepted and waits: it is neither
      refused nor handled, and the only thing the acceptor cannot do is take a slot. */
  lemma SeventeenthWaits() returns (s: State)
    ensures Reachable(s) && s.sem == MAX_CONCURRENT == 16
    ensures s.acceptor == Acquiring(16) && !Enabled(s, Acquire)
    ensures |s.handled| == 17 && s.handled[16] == 0
    ensures |s.tasks| == 16 && forall i | 0 <= i < 16 :: s.tasks[i].pc == Decoding
  {
    s := ManyDecoders(MAX_CONCURRENT);
    s := ReachableStep(s, Accept);
  }

  /** No deadlock on the way down: while some Close caller has not returned, a step
      of the server itself is enabled. */
  lemma CloseProgress(s: State, k: nat) returns (step: Step)
    requires Inv(s) && k < |s.closers| && s.closers[k] != Returned
    ensures Enabled(s, step) && !step.CallClose? && !step.Accept?
  {
    if s.once == Busy {
      var j := SumPositive(InsideOnce, s.closers);
      step := CloseListener(j);
    } else if s.closers[k] == AtOnce {
      step := if s.once == Fresh then EnterOnce(k) else SkipOnce(k);
    } else if s.closers[k] == InOnce {
      step := CloseListener(k);
    } else if s.wg == 0 {
      step := Wake(k);
    } else if Sum(Live, s.tasks) > 0 {
      var i := SumPositive(Live, s.tasks);
      step := HandlerCanStep(s, i);
    } else {
      forall i | 0 <= i < |s.tasks| ensures Slot(s.tasks[i]) == 0 {
        SumBounds(Live, s.tasks, i);
      }
      if Sum(Slot, s.tasks) > 0 {
        var i := SumPositive(Slot, s.tasks);
      }
      step := match s.acceptor
        case Acquiring(_) => Acquire
        case Adding(_) => Add
        case Spawning(_) => Spawn
        case Accepting => AcceptFails
        case _ => Leave;
    }
  }

  /** Termination of Close: any run from a closed listener is bounded, and one that
      cannot be extended by a server step has let every Close caller return and
      has handled every accepted connection. */
  lemma CloseTerminates(s: State, steps: seq<Step>, t: State)
    requires Reachable(s) && !s.listening && Path(s, steps, t)
    requires forall step :: Enabled(t, step) ==> step.CallClose?
    ensures |steps| <= Measure(s) + 4 * CloseCalls(steps)
    ensures forall k | 0 <= k < |t.closers| :: t.closers[k] == Returned
    ensures forall c | 0 <= c < |t.handled| :: t.handled[c] == 1
  {
    ReachableInv(s);
    InvAlong(s, steps, t);
    RunsAreBounded(s, steps, t);
    forall k | 0 <= k < |t.closers| ensures t.closers[k] == Returned {
      if t.closers[k] != Returned {
        var step := CloseProgress(t, k);
      }
    }
    if Sum(Live, t.tasks) > 0 {
      var i := SumPositive(Live, t.tasks);
      var step := HandlerCanStep(t, i);
    }
    assert !Enabled(t, AcceptFails) && !Enabled(t, Leave) && !Enabled(t, Add) && !Enabled(t, Spawn) && !Enabled(t, Acquire);
    forall c | 0 <= c < |t.handled| ensures t.handled[c] == 1 {
      if c < |t.tasks| {
        SumBounds(Live, t.tasks, c);
      } else {
        forall i | 0 <= i < |t.tasks| ensures Slot(t.tasks[i]) == 0 {
          SumBounds(Live, t.tasks, i);
        }
        if Sum(Slot, t.tasks) > 0 {
          var i := SumPositive(Slot, t.tasks);
        }
      }
    }
  }
}
