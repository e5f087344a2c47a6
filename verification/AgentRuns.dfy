/** What runs of the agent look like, told in the steps taken: the life of a callback,
    which writes it makes, and where Run stands. */
module AgentRuns {
  import opened Basics
  import opened Agent
  import S = Server

  /** The last step of a path, and the state it was taken in. */
  lemma {:induction false} LastStep(s: State, steps: seq<Step>, t: State) returns (u: State)
    requires Path(s, steps, t) && steps != []
    ensures Path(s, steps[..|steps| - 1], u)
    ensures Enabled(u, steps[|steps| - 1]) && t == Apply(u, steps[|steps| - 1])
    decreases |steps|
  {
    hide Apply, Enabled;
    var n := |steps| - 1;
    if n == 0 {
      u := s;
      assert steps[1..] == [] && steps[..0] == [];
    } else {
      u := LastStep(Apply(s, steps[0]), steps[1..], t);
      assert steps[1..][..n - 1] == steps[..n][1..];
      assert steps[1..][n - 1] == steps[n];
    }
  }

  lemma FromInit(steps: seq<Step>, s: State)
    requires Path(Init(), steps, s)
    ensures Inv(s)
  {
    assert Reachable(s);
    ReachableInv(s);
  }

  // ----- the embedded server

  /** The run of the server inside a run of the agent. */
  lemma {:induction false} ServerRun(steps: seq<Step>, s: State) returns (inner: seq<S.Step>)
    requires Path(Init(), steps, s)
    ensures S.Path(S.Init(), inner, s.server)
    decreases |steps|
  {
    if steps == [] {
      inner := [];
    } else {
      var n := |steps| - 1;
      var u := LastStep(Init(), steps, s);
      var before := ServerRun(steps[..n], u);
      FromInit(steps[..n], u);
      inner := ServerMoves(u, steps[n], before);
    }
  }

  lemma ServerMoves(u: State, step: Step, before: seq<S.Step>) returns (inner: seq<S.Step>)
    requires Inv(u) && Enabled(u, step) && S.Path(S.Init(), before, u.server)
    ensures S.Path(S.Init(), inner, Apply(u, step).server)
  {
    hide S.Apply, S.Inv, S.Quiet, S.Path;
    inner := before;
    if step.Srv? {
      S.PathExtends(S.Init(), before, u.server, step.step);
      inner := before + [step.step];
    } else if step.RunStep? && (u.run == Serving || u.run == Deferred) {
      S.PathExtends(S.Init(), before, u.server, S.CallClose);
      inner := before + [S.CallClose];
    } else if step.RunStep? && u.run == Listening && step.ok {
      inner := [];
      NoServerSteps();
    }
  }

  lemma NoServerSteps()
    ensures S.Path(S.Init(), [], S.Init())
  {
  }

  // ----- one callback

  /** The steps of the callback of connection `c`, its call and its return included. */
  predicate OfCallback(step: Step, c: nat) {
    step in {Srv(S.Decode(c, true)), TakeLock(c), CopyMaster(c), Write(c), Reject(c), Srv(S.CallbackReturns(c))}
  }

  function CallbackSteps(steps: seq<Step>, c: nat): seq<Step> {
    Only(steps, step => OfCallback(step, c))
  }

  function Script(c: nat): seq<Step> {
    [Srv(S.Decode(c, true)), TakeLock(c), CopyMaster(c), Write(c), Srv(S.CallbackReturns(c))]
  }

  /** How far a callback has come; `entered` tells an idle one that returned from one
      that never ran. */
  function Progress(cb: Callback, entered: bool): nat {
    match cb
    case Idle => if entered then 5 else 0
    case Locking => 1
    case Locked => 2
    case Writing => 3
    case Rejecting => 3
    case Returning => 4
  }

  predicate Entered(s: State, c: nat) {
    c < |s.server.callbacks| && s.server.callbacks[c] > 0
  }

  predicate OnScript(steps: seq<Step>, s: State, c: nat) {
    CallbackSteps(steps, c) == if c < |s.callbacks| then Script(c)[..Progress(s.callbacks[c], Entered(s, c))] else []
  }

  /** What the invariant says of one callback. */
  lemma CallbackFacts(s: State, c: nat)
    requires Inv(s) && c < |s.callbacks|
    ensures s.callbacks[c] != Rejecting
    ensures |s.server.tasks| == |s.callbacks| <= |s.server.callbacks| && s.server.tasks[c].conn == c
    ensures s.callbacks[c] != Idle ==> s.server.tasks[c].pc == S.Calling && Entered(s, c) && s.up && s.master && s.open
    ensures s.up && s.server.tasks[c].pc == S.Calling ==> s.callbacks[c] != Idle
    ensures s.server.tasks[c].pc == S.Decoding ==> !Entered(s, c)
    ensures s.server.callbacks[c] <= 1
  {
    if s.callbacks[c] != Idle { CallbackMeansOpen(s, c); }
    hide S.Quiet, S.Accounted, S.OnceConsistent, Lifetimes, MutexHeld;
  }

  lemma NoTaskNoCall(s: State, c: nat)
    requires Inv(s) && c >= |s.callbacks|
    ensures |s.server.tasks| == |s.callbacks| && !Entered(s, c)
  {
    hide S.Quiet;
  }

  lemma ScriptMoves(u: State, step: Step, c: nat)
    requires Inv(u) && Enabled(u, step) && OfCallback(step, c)
    ensures c < |u.callbacks| && c < |Apply(u, step).callbacks|
    ensures var i := Progress(u.callbacks[c], Entered(u, c));
            i < 5 && step == Script(c)[i]
            && Progress(Apply(u, step).callbacks[c], Entered(Apply(u, step), c)) == i + 1
  {
    assert c < |u.callbacks| by { hide S.Inv, S.Quiet; }
    CallbackFacts(u, c);
    hide S.Inv, S.Quiet, Lifetimes, MutexHeld, ClosedBehind, WritesSafe;
  }

  lemma ServerStays(u: State, st: S.Step, c: nat)
    requires Inv(u) && Enabled(u, Srv(st)) && !OfCallback(Srv(st), c)
    ensures var t := Apply(u, Srv(st));
            && |u.callbacks| <= |t.callbacks|
            && (c < |u.callbacks| ==> t.callbacks[c] == u.callbacks[c] && (Entered(t, c) <==> Entered(u, c)))
            && (|u.callbacks| <= c < |t.callbacks| ==> t.callbacks[c] == Idle && !Entered(t, c))
  {
    if c < |u.callbacks| { CallbackFacts(u, c); } else { NoTaskNoCall(u, c); }
    if st.Decode? { DecodedTask(u, st.i, st.ok); }
    hide Inv;
  }

  lemma DecodedTask(u: State, i: nat, ok: bool)
    requires Inv(u) && Enabled(u, Srv(S.Decode(i, ok)))
    ensures i < |u.callbacks| == |u.server.tasks| <= |u.server.callbacks| && u.server.tasks[i].conn == i
  {
    hide S.Quiet, S.Accounted, S.OnceConsistent, Lifetimes, MutexHeld;
  }

  lemma LocalStays(u: State, step: Step, c: nat)
    requires Enabled(u, step) && IsLocal(step) && !OfCallback(step, c)
    ensures Apply(u, step).server == u.server && |Apply(u, step).callbacks| == |u.callbacks|
    ensures c < |u.callbacks| ==> Apply(u, step).callbacks[c] == u.callbacks[c]
  {
    hide S.Apply, S.Enabled, CopierAfter;
  }

  lemma ScriptStays(u: State, step: Step, c: nat)
    requires Inv(u) && Enabled(u, step) && !OfCallback(step, c)
    ensures var t := Apply(u, step);
            && |u.callbacks| <= |t.callbacks|
            && (c < |u.callbacks| ==> t.callbacks[c] == u.callbacks[c] && (Entered(t, c) <==> Entered(u, c)))
            && (|u.callbacks| <= c < |t.callbacks| ==> t.callbacks[c] == Idle && !Entered(t, c))
  {
    hide Inv, Enabled, OfCallback, ApplyRun;
    match step
    case Srv(st) => ServerStays(u, st, c);
    case RunStep(ok) => RunKeepsCallbacks(u, ok);
    case _ => LocalStays(u, step, c);
  }

  lemma RunKeepsCallbacks(u: State, ok: bool)
    requires Inv(u) && Enabled(u, RunStep(ok))
    ensures ApplyRun(u, ok).callbacks == u.callbacks
    ensures ApplyRun(u, ok).server.callbacks == u.server.callbacks
  {
    MutexEffect(u, ok);
    assert !u.up ==> u.server == S.Init() by { hide S.Inv, S.Quiet; }
    assert u.up <==> 7 <= Stage(u.run) <= 17 by { hide S.Inv, S.Quiet; }
    hide Inv, Enabled;
  }

  /** Every callback is entered, takes the mutex, copies the master and releases the
      mutex, writes, and returns: in that order, leaving out nothing, once. */
  lemma {:induction false} CallbackFollowsScript(steps: seq<Step>, s: State, c: nat)
    requires Path(Init(), steps, s)
    ensures OnScript(steps, s, c)
    decreases |steps|
  {
    hide Inv, Apply, Enabled, OnScript;
    if steps == [] {
      NothingTaken(c);
    } else {
      var n := |steps| - 1;
      var u := LastStep(Init(), steps, s);
      CallbackFollowsScript(steps[..n], u, c);
      FromInit(steps[..n], u);
      OnScriptStep(steps[..n], u, steps[n], c);
      assert steps == steps[..n] + [steps[n]];
    }
  }

  lemma NothingTaken(c: nat)
    ensures OnScript([], Init(), c)
  {
  }

  lemma OnScriptStep(steps: seq<Step>, u: State, step: Step, c: nat)
    requires Inv(u) && Enabled(u, step) && OnScript(steps, u, c)
    ensures OnScript(steps + [step], Apply(u, step), c)
  {
    hide Inv, Apply, Enabled, Entered, Progress;
    assert (steps + [step])[..|steps|] == steps;
    var done := CallbackSteps(steps, c);
    if OfCallback(step, c) {
      ScriptMoves(u, step, c);
      var i := Progress(u.callbacks[c], Entered(u, c));
      assert Script(c)[..i] + [Script(c)[i]] == Script(c)[..i + 1];
    } else {
      ScriptStays(u, step, c);
      assert done + [] == done;
      NotEntered();
    }
  }

  lemma NotEntered()
    ensures Progress(Idle, false) == 0
  {
  }

  // ----- the writes

  function WritesOf(writes: seq<TerminalWrite>, c: nat): nat {
    if writes == [] then 0
    else
      var n := |writes| - 1;
      WritesOf(writes[..n], c) + (if writes[n].conn == c then 1 else 0)
  }

  lemma WriteStep(u: State, step: Step, c: nat)
    requires Enabled(u, step)
    ensures WritesOf(Apply(u, step).writes, c) == WritesOf(u.writes, c) + (if step == Write(c) then 1 else 0)
    ensures |Apply(u, step).writes| == |u.writes| + (if step.Write? then 1 else 0)
  {
    if step.Write? {
      var w := TerminalWrite(step.i, u.open);
      assert (u.writes + [w])[..|u.writes|] == u.writes;
    }
  }

  /** The writes made are the Write steps taken, connection by connection. */
  lemma {:induction false} WritesAreSteps(steps: seq<Step>, s: State, c: nat)
    requires Path(Init(), steps, s)
    ensures WritesOf(s.writes, c) == Times(steps, Write(c))
    decreases |steps|
  {
    if steps != [] {
      var n := |steps| - 1;
      var u := LastStep(Init(), steps, s);
      WritesAreSteps(steps[..n], u, c);
      WriteStep(u, steps[n], c);
      assert steps == steps[..n] + [steps[n]];
    }
  }

  lemma ScriptCounts(c: nat, i: nat, done: seq<Step>)
    requires i <= 5 && done == Script(c)[..i]
    ensures Times(done, Srv(S.Decode(c, true))) == (if i >= 1 then 1 else 0)
    ensures Times(done, Write(c)) == (if i >= 4 then 1 else 0)
    ensures Times(done, Srv(S.CallbackReturns(c))) == (if i == 5 then 1 else 0)
  {
    if i == 0 { assert done == []; }
    if i == 1 { assert done == [Srv(S.Decode(c, true))]; }
    if i == 2 { assert done == [Srv(S.Decode(c, true)), TakeLock(c)]; }
    if i == 3 { assert done == [Srv(S.Decode(c, true)), TakeLock(c), CopyMaster(c)]; }
    if i == 4 { assert done == [Srv(S.Decode(c, true)), TakeLock(c), CopyMaster(c), Write(c)]; }
    if i == 5 { assert done == [Srv(S.Decode(c, true)), TakeLock(c), CopyMaster(c), Write(c), Srv(S.CallbackReturns(c))]; }
  }

  /** In every reachable state: a connection's callback that has returned, or stands
      before its return, has made exactly one write, and any other none; so there is one
      write for every return, and one for every callback about to return. */
  lemma OneWritePerCall(steps: seq<Step>, s: State, c: nat)
    requires Path(Init(), steps, s)
    ensures WritesOf(s.writes, c) ==
            Times(steps, Srv(S.CallbackReturns(c)))
            + (if c < |s.callbacks| && s.callbacks[c] == Returning then 1 else 0)
    ensures WritesOf(s.writes, c) <= Times(steps, Srv(S.Decode(c, true))) <= 1
    ensures c < |s.callbacks| ==> c < |s.server.callbacks|
    ensures c < |s.callbacks| && s.callbacks[c] == Idle ==>
              WritesOf(s.writes, c) == Times(steps, Srv(S.Decode(c, true))) == s.server.callbacks[c]
  {
    hide Path, Inv, Only, Script, WritesOf, Times;
    CallbackCounts(steps, s, c);
    WritesAreSteps(steps, s, c);
  }

  /** The counts of a callback's steps, by where it stands. */
  lemma CallbackCounts(steps: seq<Step>, s: State, c: nat)
    requires Path(Init(), steps, s)
    ensures var i := if c < |s.callbacks| then Progress(s.callbacks[c], Entered(s, c)) else 0;
            && Times(steps, Srv(S.Decode(c, true))) == (if i >= 1 then 1 else 0)
            && Times(steps, Write(c)) == (if i >= 4 then 1 else 0)
            && Times(steps, Srv(S.CallbackReturns(c))) == (if i == 5 then 1 else 0)
    ensures c < |s.callbacks| ==>
              && c < |s.server.callbacks| && s.server.callbacks[c] <= 1 && s.callbacks[c] != Rejecting
              && (s.callbacks[c] != Idle ==> Entered(s, c))
  {
    FromInit(steps, s);
    CallbackFollowsScript(steps, s, c);
    OnlyCounts(steps, step => OfCallback(step, c), Write(c));
    OnlyCounts(steps, step => OfCallback(step, c), Srv(S.Decode(c, true)));
    OnlyCounts(steps, step => OfCallback(step, c), Srv(S.CallbackReturns(c)));
    hide Path, Inv, Times, Only, Script;
    var done := CallbackSteps(steps, c);
    if c < |s.callbacks| {
      CallbackFacts(s, c);
      ScriptCounts(c, Progress(s.callbacks[c], Entered(s, c)), done);
    } else {
      NothingCounted(c, done);
    }
  }

  lemma NothingCounted(c: nat, done: seq<Step>)
    requires done == []
    ensures Times(done, Srv(S.Decode(c, true))) == Times(done, Write(c)) == Times(done, Srv(S.CallbackReturns(c))) == 0
  {
  }

  /** By the time Run closes the master, and so when it has returned: every connection
      accepted has been handled, and every request that decoded has been written to the
      terminal exactly once, to an open master, and no other request. */
  lemma EveryRequestWritten(steps: seq<Step>, s: State, c: nat)
    requires Path(Init(), steps, s) && 11 <= Stage(s.run) <= 17
    requires c < |s.server.handled|
    ensures s.server.handled[c] == 1
    ensures c < |s.server.callbacks|
    ensures WritesOf(s.writes, c) == Times(steps, Srv(S.Decode(c, true))) == s.server.callbacks[c] <= 1
    ensures forall j | 0 <= j < |s.writes| :: s.writes[j].open
  {
    FromInit(steps, s);
    AllHandled(s, c);
    OneWritePerCall(steps, s, c);
    CallbackFacts(s, c);
  }

  lemma AllHandled(s: State, c: nat)
    requires Inv(s) && 11 <= Stage(s.run) <= 17 && c < |s.server.handled|
    ensures s.server.handled[c] == 1 && c < |s.callbacks| && s.callbacks[c] == Idle
    ensures forall j | 0 <= j < |s.writes| :: s.writes[j].open
  {
  }

  // ----- Run

  predicate OfRun(step: Step) { step.RunStep? }

  /** Run takes its seventeen steps one after another and leaves none out. */
  lemma {:induction false} RunStepsCounted(steps: seq<Step>, s: State)
    requires Path(Init(), steps, s) && s.run != Failed
    ensures |Only(steps, OfRun)| == Stage(s.run)
    decreases |steps|
  {
    if steps != [] {
      var n := |steps| - 1;
      var u := LastStep(Init(), steps, s);
      RunMoves(u, steps[n]);
      RunStepsCounted(steps[..n], u);
    }
  }

  lemma RunMoves(u: State, step: Step)
    requires Enabled(u, step) && Apply(u, step).run != Failed
    ensures u.run != Failed
    ensures Stage(Apply(u, step).run) == Stage(u.run) + (if step.RunStep? then 1 else 0)
  {
    match step
    case RunStep(ok) => RunAdvances(u, ok);
    case _ => hide S.Apply, S.Enabled, Stage;
  }

  lemma RunAdvances(u: State, ok: bool)
    requires Enabled(u, RunStep(ok)) && ApplyRun(u, ok).run != Failed
    ensures u.run != Failed
    ensures var t := ApplyRun(u, ok); Stage(t.run) == Stage(u.run) + 1
  {
  }
}
