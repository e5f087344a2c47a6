/** The agent around the socket server: Run's start-up and shutdown order, the
    socket callback that copies the PTY master under a mutex and writes to it
    after releasing the mutex, and the two I/O copiers. The server is the machine
    of module Server, embedded; a callback runs inside its handler's Calling stage.
    The master's file is in blocking mode, its descriptor having been taken with Fd:
    closing it fails every later Read and Write and interrupts none under way. */
module Agent {
  import opened Sums
  import S = Server

  /** Where a handler's callback stands. */
  datatype Callback =
    | Idle
    | Locking
    | Locked     // holds the mutex, about to copy a.master and unlock
    | Writing    // holds a non-nil copy, mutex released
    | Rejecting  // copied nil: the "master is closed" branch
    | Returning

  datatype RunPc =
    | Opening | LockMaster | SetMaster
    | Starting | LockShell | SetShell
    | Listening | LockServer | SetServer
    | Serving
    | Stopping(k: nat)
    | CloseMaster | LockClear | ClearMaster
    | Draining
    | Deferred | InDeferred(k: nat)
    | Finished
    | Failed

  datatype Owner = Nobody | Run | Handler(i: nat)

  /** io.Copy from one file to another. */
  datatype Copier =
    | NotStarted
    | Turning   // about to call Read
    | Reading   // a Read is under way
    | Got       // has data, about to call Write
    | Putting   // a Write is under way
    | Over

  /** The copier from the terminal to the master, and the one back. */
  datatype Side = Stdin | Stdout

  datatype Act = Read | Data | End | Put | Written(ok: bool)

  /** A write to the master by the callback of connection `conn`. */
  datatype TerminalWrite = TerminalWrite(conn: nat, open: bool)

  datatype State = State(
    run: RunPc,
    mutex: Owner,
    master: bool,          // a.master is not nil
    open: bool,            // the master file is open
    up: bool,              // ListenAndServe has returned
    server: S.State,
    callbacks: seq<Callback>,
    stdin: Copier,
    stdout: Copier,
    writes: seq<TerminalWrite>,  // in order; and was the master open?
    rejected: nat          // times a callback found a.master nil
  )

  datatype Step =
    | RunStep(ok: bool)
    | Srv(step: S.Step)
    | TakeLock(i: nat)
    | CopyMaster(i: nat)
    | Write(i: nat)
    | Reject(i: nat)
    | Copy(side: Side, act: Act)

  function Init(): State {
    State(Opening, Nobody, false, false, false, S.Init(), [], NotStarted, NotStarted, [], 0)
  }

  predicate CallbackAt(s: State, i: nat, c: Callback) {
    i < |s.callbacks| && s.callbacks[i] == c
  }

  function CopierOf(s: State, side: Side): Copier {
    match side
    case Stdin => s.stdin
    case Stdout => s.stdout
  }

  predicate CopyEnabled(c: Copier, act: Act) {
    match act
    case Read => c == Turning
    case Data => c == Reading
    case End => c == Reading
    case Put => c == Got
    case Written(_) => c == Putting
  }

  /** A Read on a closed source and a Write on a closed destination fail at once. */
  function Copied(c: Copier, act: Act, sourceOpen: bool, destOpen: bool): Copier {
    match act
    case Read => if sourceOpen then Reading else Over
    case Data => Got
    case End => Over
    case Put => if destOpen then Putting else Over
    case Written(ok) => if ok then Turning else Over
  }

  /** The copier after one act; the terminal's files are never closed. */
  function CopierAfter(s: State, side: Side, act: Act): Copier {
    match side
    case Stdin => Copied(s.stdin, act, true, s.open)
    case Stdout => Copied(s.stdout, act, s.open, true)
  }

  predicate Enabled(s: State, step: Step) {
    match step
    case RunStep(_) =>
      (match s.run
       case LockMaster | LockShell | LockServer | LockClear => s.mutex == Nobody
       case Stopping(k) => S.CloserAt(s.server, k, S.Returned)
       case InDeferred(k) => S.CloserAt(s.server, k, S.Returned)
       case Draining => s.stdin == Over && s.stdout == Over
       case Finished => false
       case Failed => false
       case _ => true)
    case Srv(st) =>
      && s.up
      && S.Enabled(s.server, st)
      && (st.CallbackReturns? ==> CallbackAt(s, st.i, Returning))
    case TakeLock(i) => CallbackAt(s, i, Locking) && s.mutex == Nobody
    case CopyMaster(i) => CallbackAt(s, i, Locked)
    case Write(i) => CallbackAt(s, i, Writing)
    case Reject(i) => CallbackAt(s, i, Rejecting)
    case Copy(side, act) => CopyEnabled(CopierOf(s, side), act)
  }

  function CloseServer(s: State): State {
    s.(server := S.Apply(s.server, S.CallClose))
  }

  function ApplyRun(s: State, ok: bool): State {
    match s.run
    case Opening => if ok then s.(open := true, run := LockMaster) else s.(run := Failed)
    case LockMaster => s.(mutex := Run, run := SetMaster)
    case SetMaster => s.(master := true, mutex := Nobody, run := Starting)
    case Starting => s.(run := if ok then LockShell else Failed)
    case LockShell => s.(mutex := Run, run := SetShell)
    case SetShell => s.(mutex := Nobody, run := Listening)
    case Listening => if ok then s.(up := true, server := S.Init(), run := LockServer) else s.(run := Failed)
    case LockServer => s.(mutex := Run, run := SetServer)
    case SetServer => s.(mutex := Nobody, stdin := Turning, stdout := Turning, run := Serving)
    case Serving => CloseServer(s).(run := Stopping(|s.server.closers|))
    case Stopping(_) => s.(run := CloseMaster)
    case CloseMaster => s.(open := false, run := LockClear)
    case LockClear => s.(mutex := Run, run := ClearMaster)
    case ClearMaster => s.(master := false, mutex := Nobody, run := Draining)
    case Draining => s.(run := Deferred)
    case Deferred => CloseServer(s).(run := InDeferred(|s.server.closers|))
    case InDeferred(_) => s.(run := Finished)
    case Finished => s
    case Failed => s
  }

  /** What a server step does to the callbacks running inside its handlers. */
  function Follow(callbacks: seq<Callback>, st: S.Step): seq<Callback> {
    match st
    case Spawn => callbacks + [Idle]
    case Decode(i, ok) => if ok && i < |callbacks| then callbacks[i := Locking] else callbacks
    case CallbackReturns(i) => if i < |callbacks| then callbacks[i := Idle] else callbacks
    case _ => callbacks
  }

  function Apply(s: State, step: Step): State
    requires Enabled(s, step)
  {
    match step
    case RunStep(ok) => ApplyRun(s, ok)
    case Srv(st) => s.(server := S.Apply(s.server, st), callbacks := Follow(s.callbacks, st))
    case TakeLock(i) => s.(mutex := Handler(i), callbacks := s.callbacks[i := Locked])
    case CopyMaster(i) =>
      s.(mutex := Nobody, callbacks := s.callbacks[i := if s.master then Writing else Rejecting])
    case Write(i) => s.(writes := s.writes + [TerminalWrite(i, s.open)], callbacks := s.callbacks[i := Returning])
    case Reject(i) => s.(rejected := s.rejected + 1, callbacks := s.callbacks[i := Returning])
    case Copy(side, act) =>
      (match side
       case Stdin => s.(stdin := CopierAfter(s, side, act))
       case Stdout => s.(stdout := CopierAfter(s, side, act)))
  }

  ghost predicate Path(s: State, steps: seq<Step>, t: State)
    decreases |steps|
  {
    if steps == [] then s == t
    else Enabled(s, steps[0]) && Path(Apply(s, steps[0]), steps[1..], t)
  }

  ghost predicate Reachable(s: State) {
    exists steps :: Path(Init(), steps, s)
  }

  // ----- the invariant

  function Stage(run: RunPc): nat {
    match run
    case Opening => 0
    case LockMaster => 1
    case SetMaster => 2
    case Starting => 3
    case LockShell => 4
    case SetShell => 5
    case Listening => 6
    case LockServer => 7
    case SetServer => 8
    case Serving => 9
    case Stopping(_) => 10
    case CloseMaster => 11
    case LockClear => 12
    case ClearMaster => 13
    case Draining => 14
    case Deferred => 15
    case InDeferred(_) => 16
    case Finished => 17
    case Failed => 18
  }

  /** The master's lifetime in terms of where Run stands. */
  ghost predicate Lifetimes(s: State) {
    && (s.up <==> 7 <= Stage(s.run) <= 17)
    && (s.run != Failed ==> (s.master <==> 3 <= Stage(s.run) <= 13))
    && (s.run != Failed ==> (s.open <==> 1 <= Stage(s.run) <= 11))
    && (s.stdin == NotStarted <==> !(9 <= Stage(s.run) <= 17))
    && (s.stdout == NotStarted <==> !(9 <= Stage(s.run) <= 17))
    && (14 < Stage(s.run) <= 17 ==> s.stdin == Over && s.stdout == Over)
  }

  ghost predicate CallbacksMatch(s: State) {
    && (!s.up ==> s.server == S.Init())
    && |s.callbacks| == |s.server.tasks|
    && (forall i | 0 <= i < |s.callbacks| ::
          s.callbacks[i] != Idle <==> s.up && s.server.tasks[i].pc == S.Calling)
  }

  /** Run is inside a critical section. */
  predicate Inside(run: RunPc) {
    run.SetMaster? || run.SetShell? || run.SetServer? || run.ClearMaster?
  }

  ghost predicate MutexHeld(s: State) {
    && (s.mutex == Run <==> Inside(s.run))
    && (forall i | 0 <= i < |s.callbacks| :: s.callbacks[i] == Locked <==> s.mutex == Handler(i))
    && (s.mutex.Handler? ==> s.mutex.i < |s.callbacks|)
  }

  /** What makes the unlocked write safe: Run is past Server.Close only when the
      server is quiet. */
  ghost predicate ClosedBehind(s: State) {
    && S.Inv(s.server)
    && (s.run.Stopping? ==> s.run.k < |s.server.closers|)
    && (s.run.InDeferred? ==> s.run.k < |s.server.closers|)
    && (11 <= Stage(s.run) <= 17 ==> S.Quiet(s.server))
  }

  ghost predicate WritesSafe(s: State) {
    && (forall i | 0 <= i < |s.callbacks| :: s.callbacks[i] != Rejecting)
    && (forall j | 0 <= j < |s.writes| :: s.writes[j].open)
    && s.rejected == 0
  }

  ghost predicate Inv(s: State) {
    Lifetimes(s) && CallbacksMatch(s) && MutexHeld(s) && ClosedBehind(s) && WritesSafe(s)
  }

  lemma ServerInitInv()
    ensures S.Inv(S.Init())
  {
  }

  /** A callback can be running only between Listen and the end of Server.Close,
      when the master is open and a.master is set. */
  lemma CallbackMeansOpen(s: State, i: nat)
    requires Inv(s) && i < |s.callbacks| && s.callbacks[i] != Idle
    ensures s.up && s.open && s.master
  {
  }

  lemma ClosedBehindRun(s: State, ok: bool)
    requires ClosedBehind(s) && Enabled(s, RunStep(ok))
    ensures ClosedBehind(ApplyRun(s, ok))
  {
    hide S.Inv, S.Quiet;
    ServerInitInv();
    if s.run == Serving || s.run == Deferred { S.InvStep(s.server, S.CallClose); }
    if s.run == Deferred { S.QuietStep(s.server, S.CallClose); }
    if s.run.Stopping? { S.ReturnedMeansQuiet(s.server, s.run.k); }
  }

  lemma ClosedBehindServer(s: State, st: S.Step)
    requires ClosedBehind(s) && Enabled(s, Srv(st))
    ensures ClosedBehind(Apply(s, Srv(st)))
  {
    hide S.Inv, S.Quiet;
    S.InvStep(s.server, st);
    if 11 <= Stage(s.run) <= 17 { S.QuietStep(s.server, st); }
  }

  /** Server steps start and end callbacks together with the Calling stage, and
      never move the callback that holds the mutex. */
  lemma FollowMatches(s: State, st: S.Step)
    requires CallbacksMatch(s) && Enabled(s, Srv(st))
    ensures CallbacksMatch(Apply(s, Srv(st)))
    ensures MutexHeld(s) ==> MutexHeld(Apply(s, Srv(st)))
    ensures WritesSafe(s) ==> WritesSafe(Apply(s, Srv(st)))
  {
  }

  lemma CallbacksMatchRun(s: State, ok: bool)
    requires CallbacksMatch(s) && Lifetimes(s) && Enabled(s, RunStep(ok))
    ensures CallbacksMatch(ApplyRun(s, ok))
  {
  }

  /** What a step of Run does to the mutex. */
  lemma MutexEffect(s: State, ok: bool)
    requires Enabled(s, RunStep(ok))
    ensures var t := ApplyRun(s, ok);
            && t.callbacks == s.callbacks
            && if Inside(s.run) then !Inside(t.run) && t.mutex == Nobody
               else if Inside(t.run) then s.mutex == Nobody && t.mutex == Run
               else t.mutex == s.mutex
  {
  }

  lemma MutexRun(s: State, ok: bool)
    requires MutexHeld(s) && Enabled(s, RunStep(ok))
    ensures MutexHeld(ApplyRun(s, ok))
  {
    hide ApplyRun, Enabled, Inside;
    MutexEffect(s, ok);
  }

  lemma LifetimesStep(s: State, step: Step)
    requires Lifetimes(s) && Enabled(s, step)
    ensures Lifetimes(Apply(s, step))
  {
  }

  /** The steps of callbacks and copiers. */
  predicate IsLocal(step: Step) { !step.RunStep? && !step.Srv? }

  lemma MutexLocal(s: State, step: Step)
    requires MutexHeld(s) && Enabled(s, step) && IsLocal(step)
    ensures MutexHeld(Apply(s, step))
  {
  }

  lemma CallbacksMatchLocal(s: State, step: Step)
    requires CallbacksMatch(s) && Enabled(s, step) && IsLocal(step)
    ensures CallbacksMatch(Apply(s, step))
  {
  }

  lemma WritesSafeLocal(s: State, step: Step)
    requires Inv(s) && Enabled(s, step) && IsLocal(step)
    ensures WritesSafe(Apply(s, step))
  {
    hide S.Inv, S.Quiet, ClosedBehind, MutexHeld, CallbacksMatch, Lifetimes;
    if step.CopyMaster? || step.Write? { CallbackMeansOpen(s, step.i); }
  }

  lemma WritesSafeRun(s: State, ok: bool)
    requires WritesSafe(s) && Enabled(s, RunStep(ok))
    ensures WritesSafe(ApplyRun(s, ok))
  {
  }

  lemma ClosedBehindLocal(s: State, step: Step)
    requires ClosedBehind(s) && Enabled(s, step) && IsLocal(step)
    ensures ClosedBehind(Apply(s, step))
  {
    hide S.Inv, S.Quiet;
  }

  lemma InvStep(s: State, step: Step)
    requires Inv(s) && Enabled(s, step)
    ensures Inv(Apply(s, step))
  {
    hide Lifetimes, CallbacksMatch, MutexHeld, ClosedBehind, WritesSafe, Enabled, ApplyRun;
    LifetimesStep(s, step);
    match step
    case RunStep(ok) =>
      ClosedBehindRun(s, ok);
      CallbacksMatchRun(s, ok);
      MutexRun(s, ok);
      WritesSafeRun(s, ok);
    case Srv(st) =>
      ClosedBehindServer(s, st);
      FollowMatches(s, st);
    case _ =>
      ClosedBehindLocal(s, step);
      MutexLocal(s, step);
      CallbacksMatchLocal(s, step);
      WritesSafeLocal(s, step);
  }

  lemma {:induction false} InvAlong(s: State, steps: seq<Step>, t: State)
    requires Inv(s) && Path(s, steps, t)
    ensures Inv(t)
    decreases |steps|
  {
    if steps != [] {
      InvStep(s, steps[0]);
      InvAlong(Apply(s, steps[0]), steps[1..], t);
    }
  }

  lemma ReachableInv(s: State)
    requires Reachable(s)
    ensures Inv(s)
  {
    ServerInitInv();
    var steps :| Path(Init(), steps, s);
    InvAlong(Init(), steps, s);
  }

  /** In every run, every callback write so far went to an open master, and no
      callback ever took, or can take, its "master is closed" branch. */
  lemma CallbackWritesAreSafe(s: State)
    requires Reachable(s)
    ensures forall j | 0 <= j < |s.writes| :: s.writes[j].open
    ensures forall i :: Enabled(s, Write(i)) ==> s.open
    ensures s.rejected == 0 && forall i :: !Enabled(s, Reject(i))
  {
    ReachableInv(s);
    forall i | Enabled(s, Write(i)) ensures s.open {
      CallbackMeansOpen(s, i);
    }
  }

  /** Once Run has closed the master, nothing of the server can move but other Close
      callers: no callback starts or is still under way. */
  lemma NoCallbackAfterMasterClose(s: State, steps: seq<Step>, t: State)
    requires Reachable(s) && 12 <= Stage(s.run) <= 17 && Path(s, steps, t)
    ensures t.writes == s.writes && t.server.callbacks == s.server.callbacks
    ensures forall i | 0 <= i < |t.callbacks| :: t.callbacks[i] == Idle
  {
    ReachableInv(s);
    AfterMasterClose(s, steps, t);
  }

  lemma AllIdleWhenQuiet(s: State)
    requires Inv(s) && 11 <= Stage(s.run) <= 17
    ensures forall i | 0 <= i < |s.callbacks| :: s.callbacks[i] == Idle
  {
  }

  lemma StepAfterMasterClose(s: State, step: Step)
    requires Inv(s) && 12 <= Stage(s.run) <= 17 && Enabled(s, step)
    ensures 12 <= Stage(Apply(s, step).run) <= 17
    ensures Apply(s, step).writes == s.writes && Apply(s, step).server.callbacks == s.server.callbacks
  {
    hide S.Inv, S.Quiet, MutexHeld, Lifetimes, CallbacksMatch, WritesSafe;
    AllIdleWhenQuiet(s);
    if step.Srv? { S.QuietStep(s.server, step.step); }
  }

  lemma {:induction false} AfterMasterClose(s: State, steps: seq<Step>, t: State)
    requires Inv(s) && 12 <= Stage(s.run) <= 17 && Path(s, steps, t)
    ensures t.writes == s.writes && t.server.callbacks == s.server.callbacks
    ensures forall i | 0 <= i < |t.callbacks| :: t.callbacks[i] == Idle
    decreases |steps|
  {
    if steps == [] {
      AllIdleWhenQuiet(s);
    } else {
      InvStep(s, steps[0]);
      StepAfterMasterClose(s, steps[0]);
      AfterMasterClose(Apply(s, steps[0]), steps[1..], t);
    }
  }

  // ----- liveness of the shutdown

  /** Steps the agent takes by itself, as opposed to what its surroundings do: the
      shell exiting, a client connecting, another Close call, terminal input
      arriving or ending, output arriving from the shell's side of the PTY or the last
      process there closing it. */
  predicate Internal(s: State, step: Step) {
    match step
    case RunStep(_) => s.run != Serving
    case Srv(st) => !st.Accept? && !st.CallClose?
    case Copy(_, act) => act != Data && act != End
    case _ => true
  }

  function CallbackRank(c: Callback): nat {
    match c
    case Idle => 0
    case Locking => 4
    case Locked => 3
    case Writing => 2
    case Rejecting => 2
    case Returning => 1
  }

  function CopierRank(c: Copier): nat {
    match c
    case NotStarted => 0
    case Got => 4
    case Putting => 3
    case Turning => 2
    case Reading => 1
    case Over => 0
  }

  function Measure(s: State): nat {
    8 * S.Measure(s.server) + Sum(CallbackRank, s.callbacks) + CopierRank(s.stdin) + CopierRank(s.stdout)
    + 30 * (18 - Stage(s.run))
  }

  /** The second Close call costs the server's measure less than Run's own step gains. */
  lemma MeasureDeferred(s: State)
    requires s.run == Deferred
    ensures Measure(ApplyRun(s, true)) < Measure(s) && ApplyRun(s, false) == ApplyRun(s, true)
  {
    hide S.Measure, Sum, S.Apply;
    S.MeasureStep(s.server, S.CallClose);
  }

  lemma MeasureRun(s: State, ok: bool)
    requires 10 <= Stage(s.run) <= 17 && Enabled(s, RunStep(ok))
    ensures Measure(ApplyRun(s, ok)) < Measure(s)
    ensures 10 <= Stage(ApplyRun(s, ok).run) <= 17
  {
    hide S.Measure, Sum, S.Apply, CallbackRank, CopierRank;
    if s.run == Deferred { MeasureDeferred(s); }
  }

  lemma MeasureServer(s: State, st: S.Step)
    requires CallbacksMatch(s) && Enabled(s, Srv(st)) && Internal(s, Srv(st))
    ensures Measure(Apply(s, Srv(st))) < Measure(s)
  {
    S.MeasureStep(s.server, st);
    match st {
      case Spawn => SumAppend(CallbackRank, s.callbacks, Idle);
      case Decode(i, ok) => SumUpdate(CallbackRank, s.callbacks, i, Locking);
      case CallbackReturns(i) => SumUpdate(CallbackRank, s.callbacks, i, Idle);
      case _ =>
    }
  }

  lemma MeasureCopy(s: State, side: Side, act: Act)
    requires Enabled(s, Copy(side, act)) && Internal(s, Copy(side, act))
    ensures Measure(Apply(s, Copy(side, act))) < Measure(s)
  {
    hide S.Measure, Sum, Stage;
  }

  lemma MeasureLocal(s: State, step: Step)
    requires Lifetimes(s) && Enabled(s, step) && IsLocal(step) && Internal(s, step)
    ensures Measure(Apply(s, step)) < Measure(s)
  {
    hide S.Measure, Sum, Stage, CopierRank, CopierAfter;
    match step
    case Copy(side, act) => MeasureCopy(s, side, act);
    case TakeLock(i) => SumUpdate(CallbackRank, s.callbacks, i, Locked);
    case CopyMaster(i) => SumUpdate(CallbackRank, s.callbacks, i, if s.master then Writing else Rejecting);
    case Write(i) => SumUpdate(CallbackRank, s.callbacks, i, Returning);
    case Reject(i) => SumUpdate(CallbackRank, s.callbacks, i, Returning);
    case _ =>
  }

  lemma MeasureDrops(s: State, step: Step)
    requires Inv(s) && 10 <= Stage(s.run) <= 17 && Enabled(s, step) && Internal(s, step)
    ensures Measure(Apply(s, step)) < Measure(s)
    ensures 10 <= Stage(Apply(s, step).run) <= 17
  {
    match step
    case RunStep(ok) => MeasureRun(s, ok);
    case Srv(st) => MeasureServer(s, st);
    case _ => MeasureLocal(s, step);
  }

  /** Run waits for copiers of which none can step and at least one sits in a Read. */
  predicate BlockedOnRead(s: State) {
    && s.run == Draining
    && s.stdin in {Reading, Over} && s.stdout in {Reading, Over}
    && !(s.stdin == Over && s.stdout == Over)
  }

  /** A callback in progress, or the mutex holder ahead of it, can step. */
  lemma CallbackCanStep(s: State, i: nat) returns (step: Step)
    requires Inv(s) && 10 <= Stage(s.run) && i < |s.callbacks| && s.callbacks[i] != Idle
    ensures Enabled(s, step) && Internal(s, step)
  {
    match s.callbacks[i]
    case Locking =>
      step := match s.mutex
        case Nobody => TakeLock(i)
        case Run => RunStep(true)
        case Handler(j) => CopyMaster(j);
    case Locked => step := CopyMaster(i);
    case Writing => step := Write(i);
    case Rejecting => step := Reject(i);
    case Returning => step := Srv(S.CallbackReturns(i));
  }

  /** While Run waits in a Close call, something can step. */
  lemma ClosingCanStep(s: State, k: nat) returns (step: Step)
    requires Inv(s) && s.run in {Stopping(k), InDeferred(k)}
    ensures Enabled(s, step) && Internal(s, step)
  {
    if s.server.closers[k] == S.Returned {
      step := RunStep(true);
    } else {
      var st := S.CloseProgress(s.server, k);
      if st.CallbackReturns? {
        step := CallbackCanStep(s, st.i);
      } else {
        step := Srv(st);
      }
    }
  }

  function NextAct(c: Copier): Act {
    match c
    case Got => Put
    case Putting => Written(true)
    case _ => Read
  }

  /** From the shell's exit on, the composed system of Run, server, callbacks and
      copiers never deadlocks: the agent can step by itself until Run has returned,
      except while it waits for a copier that sits in a Read. */
  lemma ShutdownProgress(s: State) returns (step: Step)
    requires Inv(s) && 10 <= Stage(s.run) < 17 && !BlockedOnRead(s)
    ensures Enabled(s, step) && Internal(s, step)
  {
    match s.run
    case Stopping(k) => step := ClosingCanStep(s, k);
    case InDeferred(k) => step := ClosingCanStep(s, k);
    case LockClear =>
      if s.mutex.Handler? { step := CopyMaster(s.mutex.i); } else { step := RunStep(true); }
    case Draining =>
      step := if s.stdin !in {Reading, Over} then Copy(Stdin, NextAct(s.stdin))
              else if s.stdout !in {Reading, Over} then Copy(Stdout, NextAct(s.stdout))
              else RunStep(true);
    case _ => step := RunStep(true);
  }

  ghost predicate InternalPath(s: State, steps: seq<Step>, t: State)
    decreases |steps|
  {
    if steps == [] then s == t
    else
      && Enabled(s, steps[0]) && Internal(s, steps[0])
      && InternalPath(Apply(s, steps[0]), steps[1..], t)
  }

  lemma {:induction false} InternalPathBounded(s: State, steps: seq<Step>, t: State)
    requires Inv(s) && 10 <= Stage(s.run) <= 17 && InternalPath(s, steps, t)
    ensures Inv(t) && 10 <= Stage(t.run) <= 17
    ensures |steps| + Measure(t) <= Measure(s)
    decreases |steps|
  {
    if steps != [] {
      InvStep(s, steps[0]);
      MeasureDrops(s, steps[0]);
      InternalPathBounded(Apply(s, steps[0]), steps[1..], t);
    }
  }

  /** The path contains an act that ends this copier. */
  predicate StopsAlong(side: Side, s: State, steps: seq<Step>)
    decreases |steps|
  {
    steps != [] && Enabled(s, steps[0])
    && ((steps[0].Copy? && steps[0].side == side && CopierAfter(s, side, steps[0].act) == Over)
        || StopsAlong(side, Apply(s, steps[0]), steps[1..]))
  }

  /** What one of the agent's own steps leaves of a copier and of the master. */
  lemma CopierStep(side: Side, s: State, step: Step)
    requires Lifetimes(s) && 10 <= Stage(s.run) <= 17 && Enabled(s, step) && Internal(s, step)
    ensures !s.open ==> !Apply(s, step).open
    ensures CopierOf(Apply(s, step), side) ==
            if step.Copy? && step.side == side then CopierAfter(s, side, step.act) else CopierOf(s, side)
  {
    hide S.Apply, S.Enabled;
  }

  /** Over a path of the agent's own steps: a copier is over at the end exactly if it
      was over or some act ended it, and a Read under way stays so. */
  lemma {:induction false} CopierFate(side: Side, s: State, steps: seq<Step>, t: State)
    requires Inv(s) && 10 <= Stage(s.run) <= 17 && InternalPath(s, steps, t)
    ensures CopierOf(t, side) == Over <==> CopierOf(s, side) == Over || StopsAlong(side, s, steps)
    ensures CopierOf(s, side) == Reading ==> CopierOf(t, side) == Reading
    ensures side == Stdin && s.stdin == Turning ==> t.stdin in {Turning, Reading}
    ensures !s.open && side == Stdin && s.stdin == Got ==> t.stdin in {Got, Over}
    ensures !s.open && side == Stdout && s.stdout != Reading ==> t.stdout != Reading
    decreases |steps|
  {
    if steps != [] {
      hide Inv, Internal, Apply, Enabled;
      CopierFateStep(side, s, steps[0]);
      InvStep(s, steps[0]);
      MeasureDrops(s, steps[0]);
      CopierFate(side, Apply(s, steps[0]), steps[1..], t);
    }
  }

  lemma CopierFateStep(side: Side, s: State, step: Step)
    requires Inv(s) && 10 <= Stage(s.run) <= 17 && Enabled(s, step) && Internal(s, step)
    ensures !s.open ==> !Apply(s, step).open
    ensures var c, d := CopierOf(s, side), CopierOf(Apply(s, step), side);
            && (d == Over <==> c == Over || (step.Copy? && step.side == side && CopierAfter(s, side, step.act) == Over))
            && (c == Reading ==> d == Reading)
            && (side == Stdin && c == Turning ==> d in {Turning, Reading})
            && (!s.open && side == Stdin && c == Got ==> d in {Got, Over})
            && (!s.open && side == Stdout && c != Reading ==> d != Reading)
  {
    hide Apply;
    CopierStep(side, s, step);
  }

  /** After the shell has exited the agent's own steps run out, after at most `Measure`
      of them. When they have, Run has returned if and only if each copier was over or
      was ended on the way; and otherwise it waits for the copiers. */
  lemma ShutdownCompletes(s: State, steps: seq<Step>, t: State)
    requires Reachable(s) && 10 <= Stage(s.run) <= 17 && InternalPath(s, steps, t)
    requires forall step :: Enabled(t, step) ==> !Internal(t, step)
    ensures |steps| <= Measure(s)
    ensures t.run == Finished <==> forall side :: CopierOf(s, side) == Over || StopsAlong(side, s, steps)
    ensures t.run != Finished ==> BlockedOnRead(t)
  {
    hide Enabled, Internal, StopsAlong;
    ReachableInv(s);
    InternalPathBounded(s, steps, t);
    CopierFate(Stdin, s, steps, t);
    CopierFate(Stdout, s, steps, t);
    if t.run != Finished && !BlockedOnRead(t) {
      var step := ShutdownProgress(t);
    }
    assert t.run == Finished <==> CopierOf(t, Stdin) == Over && CopierOf(t, Stdout) == Over;
  }

  /** What the state at any point after the shell's exit decides by itself. A copier
      then in a Read, or about to read the terminal, keeps Run from returning; two that
      are over let it return. Once the master is closed, Run returns if and only if no
      Read of the master is under way and the stdin copier is over, is about to write,
      or has a Write under way that fails. */
  lemma ShutdownFate(s: State, steps: seq<Step>, t: State)
    requires Reachable(s) && 10 <= Stage(s.run) <= 17 && InternalPath(s, steps, t)
    requires forall step :: Enabled(t, step) ==> !Internal(t, step)
    ensures s.stdin in {Reading, Turning} || s.stdout == Reading ==> t.run != Finished
    ensures s.stdin == Over && s.stdout == Over ==> t.run == Finished
    ensures !s.open ==>
              (t.run == Finished <==>
               && s.stdout != Reading
               && (s.stdin in {Over, Got} || (s.stdin == Putting && StopsAlong(Stdin, s, steps))))
  {
    ShutdownCompletes(s, steps, t);
    ReachableInv(s);
    CopierFate(Stdin, s, steps, t);
    CopierFate(Stdout, s, steps, t);
    assert t.run == Finished || BlockedOnRead(t);
    hide Enabled, Internal, StopsAlong, InternalPath, Inv, Reachable;
  }

  /** When Run waits, terminal input or its end releases the stdin copier, and output
      or the closing of the shell's side releases the stdout copier: after one such
      event Run returns if and only if the other copier is not in a Read as well. */
  lemma OneEventReleases(s: State, side: Side, act: Act, steps: seq<Step>, t: State)
    requires Reachable(s) && BlockedOnRead(s) && CopierOf(s, side) == Reading && act in {Data, End}
    requires Enabled(s, Copy(side, act)) && InternalPath(Apply(s, Copy(side, act)), steps, t)
    requires forall step :: Enabled(t, step) ==> !Internal(t, step)
    ensures t.run == Finished <==> CopierOf(s, if side == Stdin then Stdout else Stdin) != Reading
  {
    ReachableInv(s);
    var u := ReachableStep(s, Copy(side, act));
    ShutdownFate(u, steps, t);
  }

  lemma {:induction false} PathExtends(s: State, steps: seq<Step>, t: State, step: Step)
    requires Path(s, steps, t) && Enabled(t, step)
    ensures Path(s, steps + [step], Apply(t, step))
    decreases |steps|
  {
    if steps == [] {
      assert Path(Apply(s, step), [], Apply(s, step));
      assert [step][1..] == [];
    } else {
      PathExtends(Apply(s, steps[0]), steps[1..], t, step);
      assert (steps + [step])[1..] == steps[1..] + [step];
    }
  }

  lemma ReachableStep(s: State, step: Step) returns (t: State)
    requires Reachable(s) && Enabled(s, step)
    ensures Reachable(t) && t == Apply(s, step)
  {
    var steps :| Path(Init(), steps, s);
    PathExtends(Init(), steps, s, step);
    t := Apply(s, step);
  }

  lemma InitReachable()
    ensures Reachable(Init())
  {
    assert Path(Init(), [], Init());
  }

  /** A state in which nobody holds the mutex and no client ever connected. */
  function Calm(run: RunPc, open: bool, server: S.State, stdin: Copier, stdout: Copier): State {
    State(run, Nobody, open, open, true, server, [], stdin, stdout, [], 0)
  }

  /** A run of Run up to the point where it waits for the shell. */
  lemma ServingReachable() returns (t: State)
    ensures Reachable(t) && t == Calm(Serving, true, S.Init(), Turning, Turning)
  {
    InitReachable();
    t := Init();
    t := ReachableStep(t, RunStep(true));
    t := ReachableStep(t, RunStep(true));
    t := ReachableStep(t, RunStep(true));
    t := ReachableStep(t, RunStep(true));
    t := ReachableStep(t, RunStep(true));
    t := ReachableStep(t, RunStep(true));
    t := ReachableStep(t, RunStep(true));
    t := ReachableStep(t, RunStep(true));
    t := ReachableStep(t, RunStep(true));
  }

  /** Both copiers get into a Read. */
  lemma CopyingReachable() returns (t: State)
    ensures Reachable(t) && t == Calm(Serving, true, S.Init(), Reading, Reading)
  {
    t := ServingReachable();
    t := ReachableStep(t, Copy(Stdin, Read));
    t := ReachableStep(t, Copy(Stdout, Read));
  }

  function ListenerClosed(): S.State {
    S.State(false, S.Accepting, [], 0, 1, S.Spent, [S.Waiting], [], [])
  }

  lemma ListenerClosedReachable() returns (t: State)
    ensures Reachable(t) && t == Calm(Stopping(0), true, ListenerClosed(), Reading, Reading)
  {
    t := CopyingReachable();
    t := ReachableStep(t, RunStep(true));
    t := ReachableStep(t, Srv(S.EnterOnce(0)));
    t := ReachableStep(t, Srv(S.CloseListener(0)));
  }

  lemma AcceptorLeftReachable() returns (t: State)
    ensures Reachable(t)
    ensures t == Calm(Stopping(0), true, ListenerClosed().(acceptor := S.Exited, wg := 0), Reading, Reading)
  {
    t := ListenerClosedReachable();
    t := ReachableStep(t, Srv(S.AcceptFails));
    t := ReachableStep(t, Srv(S.Leave));
  }

  /** The server after one Close call. */
  function ServerClosed(): S.State {
    S.State(false, S.Exited, [], 0, 0, S.Spent, [S.Returned], [], [])
  }

  lemma StoppedReachable() returns (t: State)
    ensures Reachable(t) && t == Calm(Stopping(0), true, ServerClosed(), Reading, Reading)
  {
    t := AcceptorLeftReachable();
    t := ReachableStep(t, Srv(S.Wake(0)));
  }

  lemma DrainingReachable() returns (t: State)
    ensures Reachable(t) && t == Calm(Draining, false, ServerClosed(), Reading, Reading)
  {
    t := StoppedReachable();
    t := ReachableStep(t, RunStep(true));
    t := ReachableStep(t, RunStep(true));
    t := ReachableStep(t, RunStep(true));
    t := ReachableStep(t, RunStep(true));
  }

  /** Closing the master does not by itself end the stdin copier: a run exists in
      which the shell has exited, the server is quiet, the master is closed and the
      stdout copier is done, yet Run waits and no step of the agent is enabled until
      terminal input arrives. */
  lemma MasterCloseLeavesStdinBlocked() returns (t: State)
    ensures Reachable(t) && BlockedOnRead(t) && t.stdin == Reading && t.stdout == Over
    ensures !t.open && S.Quiet(t.server)
    ensures forall step :: Enabled(t, step) ==> !Internal(t, step)
  {
    t := DrainingReachable();
    t := ReachableStep(t, Copy(Stdout, End));
  }

  /** Nor does it end the stdout copier: with the terminal's input over, Run still waits
      while a process other than the shell keeps its side of the PTY open. */
  lemma MasterCloseLeavesStdoutBlocked() returns (t: State)
    ensures Reachable(t) && BlockedOnRead(t) && t.stdin == Over && t.stdout == Reading
    ensures !t.open && S.Quiet(t.server)
    ensures forall step :: Enabled(t, step) ==> !Internal(t, step)
  {
    t := DrainingReachable();
    t := ReachableStep(t, Copy(Stdin, End));
  }
}
