/** What runs of the socket server look like, told in the steps taken: which sequence
    of steps each goroutine goes through, and the counters as counts of steps. */
module ServerRuns {
  import opened Basics
  import opened Server

  /** The last step of a path, and the state it was taken in. */
  lemma {:induction false} LastStep(s: State, steps: seq<Step>, t: State) returns (u: State)
    requires Path(s, steps, t) && steps != []
    ensures Path(s, steps[..|steps| - 1], u)
    ensures Enabled(u, steps[|steps| - 1]) && t == Apply(u, steps[|steps| - 1])
    decreases |steps|
  {
    hide Apply, Enabled;
    var n := |steps| - 1;
    if n == 0 {
      u := s;
      assert steps[1..] == [] && steps[..0] == [];
    } else {
      u := LastStep(Apply(s, steps[0]), steps[1..], t);
      assert steps[1..][..n - 1] == steps[..n][1..];
      assert steps[1..][n - 1] == steps[n];
    }
  }

  lemma FromInit(steps: seq<Step>, s: State)
    requires Path(Init(), steps, s)
    ensures Inv(s)
  {
    InvAlong(Init(), steps, s);
  }

  // ----- one handler

  predicate OfHandler(step: Step, c: nat) {
    step in {Decode(c, true), Decode(c, false), CallbackReturns(c), Reply(c), Release(c), Finish(c)}
  }

  function HandlerSteps(steps: seq<Step>, c: nat): seq<Step> {
    Only(steps, step => OfHandler(step, c))
  }

  /** The life of the handler of connection `c`, for a request that decodes or not. */
  function Script(c: nat, ok: bool): seq<Step> {
    if ok then [Decode(c, true), CallbackReturns(c), Reply(c), Release(c), Finish(c)]
    else [Decode(c, false), Reply(c), Release(c), Finish(c)]
  }

  function Progress(ok: bool, pc: Pc): nat {
    match pc
    case Decoding => 0
    case Calling => 1
    case Replying => if ok then 2 else 1
    case Releasing => if ok then 3 else 2
    case Finishing => if ok then 4 else 3
    case Ended => if ok then 5 else 4
  }

  predicate Follows(done: seq<Step>, c: nat, ok: bool, pc: Pc) {
    done == Script(c, ok)[..Progress(ok, pc)] && (pc == Calling ==> ok)
  }

  ghost predicate OnScript(steps: seq<Step>, s: State, c: nat) {
    if c < |s.tasks| then exists ok :: Follows(HandlerSteps(steps, c), c, ok, s.tasks[c].pc)
    else HandlerSteps(steps, c) == []
  }

  /** One step of the handler itself. */
  lemma ScriptMoves(u: State, step: Step, c: nat, done: seq<Step>, ok: bool) returns (ok': bool)
    requires Inv(u) && Enabled(u, step) && c < |u.tasks| && OfHandler(step, c)
    requires Follows(done, c, ok, u.tasks[c].pc)
    ensures c < |Apply(u, step).tasks| && Follows(done + [step], c, ok', Apply(u, step).tasks[c].pc)
  {
    hide Inv;
    ok' := if step.Decode? then step.ok else ok;
  }

  /** Any other step leaves it where it is. */
  lemma ScriptStays(u: State, step: Step, c: nat)
    requires Inv(u) && Enabled(u, step) && !OfHandler(step, c)
    ensures c < |u.tasks| ==> c < |Apply(u, step).tasks| && Apply(u, step).tasks[c] == u.tasks[c]
    ensures c >= |u.tasks| && c < |Apply(u, step).tasks| ==> Apply(u, step).tasks[c].pc == Decoding
    ensures |u.tasks| <= |Apply(u, step).tasks|
  {
    hide Inv;
  }

  /** Every handler goes through its script, and stands where its steps have brought it. */
  lemma {:induction false} HandlerFollowsScript(steps: seq<Step>, s: State, c: nat)
    requires Path(Init(), steps, s)
    ensures OnScript(steps, s, c)
    decreases |steps|
  {
    if steps == [] {
    } else {
      var n := |steps| - 1;
      var u := LastStep(Init(), steps, s);
      HandlerFollowsScript(steps[..n], u, c);
      FromInit(steps[..n], u);
      OnScriptStep(steps[..n], u, steps[n], c);
      assert steps == steps[..n] + [steps[n]];
    }
  }

  lemma OnScriptStep(steps: seq<Step>, u: State, step: Step, c: nat)
    requires Inv(u) && Enabled(u, step) && OnScript(steps, u, c)
    ensures OnScript(steps + [step], Apply(u, step), c)
  {
    hide Inv, Apply, Enabled, Follows;
    assert (steps + [step])[..|steps|] == steps;
    var done := HandlerSteps(steps, c);
    if OfHandler(step, c) {
      HandlerExists(u, step, c);
      var ok :| Follows(done, c, ok, u.tasks[c].pc);
      var ok' := ScriptMoves(u, step, c, done, ok);
      assert HandlerSteps(steps + [step], c) == done + [step];
    } else {
      ScriptStays(u, step, c);
      assert done + [] == done;
      assert HandlerSteps(steps + [step], c) == done;
      if c < |u.tasks| {
        var ok :| Follows(done, c, ok, u.tasks[c].pc);
      } else {
        NotStarted(c);
      }
    }
  }

  lemma HandlerExists(u: State, step: Step, c: nat)
    requires Enabled(u, step) && OfHandler(step, c)
    ensures c < |u.tasks|
  {
  }

  lemma NotStarted(c: nat)
    ensures Follows([], c, true, Decoding)
  {
  }

  /** The steps a handler can take are those that continue its script, and no others. */
  lemma HandlerStepsExactly(steps: seq<Step>, s: State, c: nat, step: Step)
    requires Path(Init(), steps, s) && c < |s.tasks| && OfHandler(step, c)
    ensures Enabled(s, step) <==>
            HandlerSteps(steps, c) + [step] <= Script(c, true) || HandlerSteps(steps, c) + [step] <= Script(c, false)
  {
    HandlerFollowsScript(steps, s, c);
    FromInit(steps, s);
    NeverRaisedFromZero(s);
    var ok :| Follows(HandlerSteps(steps, c), c, ok, s.tasks[c].pc);
    StepsExactly(s, c, step, HandlerSteps(steps, c), ok);
  }

  lemma Continues(done: seq<Step>, step: Step, script: seq<Step>)
    ensures done + [step] <= script <==> |done| < |script| && done == script[..|done|] && step == script[|done|]
  {
    if |done| < |script| && done == script[..|done|] && step == script[|done|] {
      assert script[..|done| + 1] == done + [step];
    }
    if done + [step] <= script {
      assert (done + [step])[|done|] == step && (done + [step])[..|done|] == done;
    }
  }

  lemma StepsExactly(s: State, c: nat, step: Step, done: seq<Step>, ok: bool)
    requires c < |s.tasks| && OfHandler(step, c) && Follows(done, c, ok, s.tasks[c].pc)
    requires TaskAt(s, c, Releasing) ==> s.sem > 0
    ensures Enabled(s, step) <==> done + [step] <= Script(c, true) || done + [step] <= Script(c, false)
  {
    Continues(done, step, Script(c, true));
    Continues(done, step, Script(c, false));
    if done != [] {
      assert done[0] == Decode(c, ok);
      if |done| <= |Script(c, !ok)| {
        assert Script(c, !ok)[..|done|][0] == Decode(c, !ok);
      }
    }
  }

  // ----- counts

  lemma ScriptCounts(c: nat, ok: bool, pc: Pc, done: seq<Step>)
    requires Follows(done, c, ok, pc)
    ensures Times(done, Decode(c, true)) == (if ok && pc != Decoding then 1 else 0)
    ensures Times(done, Decode(c, false)) == (if !ok && pc != Decoding then 1 else 0)
    ensures Times(done, CallbackReturns(c)) == (if ok && pc !in {Decoding, Calling} then 1 else 0)
    ensures Times(done, Reply(c)) == (if pc in {Releasing, Finishing, Ended} then 1 else 0)
    ensures Times(done, Release(c)) == (if pc in {Finishing, Ended} then 1 else 0)
    ensures Times(done, Finish(c)) == (if pc == Ended then 1 else 0)
  {
    hide Times;
    if ok { YesCounts(c, pc, done); } else { NoCounts(c, pc, done); }
  }

  lemma YesCounts(c: nat, pc: Pc, done: seq<Step>)
    requires Follows(done, c, true, pc)
    ensures Times(done, Decode(c, true)) == (if pc != Decoding then 1 else 0)
    ensures Times(done, Decode(c, false)) == 0
    ensures Times(done, CallbackReturns(c)) == (if pc !in {Decoding, Calling} then 1 else 0)
    ensures Times(done, Reply(c)) == (if pc in {Releasing, Finishing, Ended} then 1 else 0)
    ensures Times(done, Release(c)) == (if pc in {Finishing, Ended} then 1 else 0)
    ensures Times(done, Finish(c)) == (if pc == Ended then 1 else 0)
  {
    match pc
    case Decoding => assert done == [];
    case Calling => assert done == [Decode(c, true)];
    case Replying => assert done == [Decode(c, true), CallbackReturns(c)];
    case Releasing => assert done == [Decode(c, true), CallbackReturns(c), Reply(c)];
    case Finishing => assert done == [Decode(c, true), CallbackReturns(c), Reply(c), Release(c)];
    case Ended => assert done == [Decode(c, true), CallbackReturns(c), Reply(c), Release(c), Finish(c)];
  }

  lemma NoCounts(c: nat, pc: Pc, done: seq<Step>)
    requires Follows(done, c, false, pc)
    ensures Times(done, Decode(c, true)) == 0
    ensures Times(done, Decode(c, false)) == (if pc != Decoding then 1 else 0)
    ensures Times(done, CallbackReturns(c)) == 0
    ensures Times(done, Reply(c)) == (if pc in {Releasing, Finishing, Ended} then 1 else 0)
    ensures Times(done, Release(c)) == (if pc in {Finishing, Ended} then 1 else 0)
    ensures Times(done, Finish(c)) == (if pc == Ended then 1 else 0)
  {
    match pc
    case Decoding => assert done == [];
    case Replying => assert done == [Decode(c, false)];
    case Releasing => assert done == [Decode(c, false), Reply(c)];
    case Finishing => assert done == [Decode(c, false), Reply(c), Release(c)];
    case Ended => assert done == [Decode(c, false), Reply(c), Release(c), Finish(c)];
  }

  lemma CountStep(u: State, step: Step, c: nat)
    requires Inv(u) && Enabled(u, step) && c < |Apply(u, step).handled|
    ensures var t := Apply(u, step);
            && |t.callbacks| == |t.handled|
            && t.callbacks[c] ==
               (if c < |u.callbacks| then u.callbacks[c] else 0) + (if step == Decode(c, true) then 1 else 0)
            && t.handled[c] == (if c < |u.handled| then u.handled[c] else 0) + (if step == Reply(c) then 1 else 0)
  {
    hide Accounted, OnceConsistent;
  }

  /** For every connection, the callback was entered once for every time its request
      decoded, and it was handled once for every reply. */
  lemma {:induction false} CallsAreDecodes(steps: seq<Step>, s: State, c: nat)
    requires Path(Init(), steps, s) && c < |s.handled|
    ensures c < |s.callbacks|
    ensures s.callbacks[c] == Times(steps, Decode(c, true))
    ensures s.handled[c] == Times(steps, Reply(c))
    decreases |steps|
  {
    if steps != [] {
      var n := |steps| - 1;
      var u := LastStep(Init(), steps, s);
      FromInit(steps[..n], u);
      CountStep(u, steps[n], c);
      assert steps == steps[..n] + [steps[n]];
      if c < |u.handled| {
        CallsAreDecodes(steps[..n], u, c);
      } else {
        HandlerFollowsScript(steps[..n], u, c);
        OnlyCounts(steps[..n], step => OfHandler(step, c), Decode(c, true));
        OnlyCounts(steps[..n], step => OfHandler(step, c), Reply(c));
        hide Apply, Enabled, Path;
        TasksAreAccepted(u);
      }
    }
  }

  lemma TasksAreAccepted(u: State)
    requires Inv(u)
    ensures |u.tasks| <= |u.handled| == |u.callbacks|
  {
  }

  /** A connection that was handled: either its request decoded and the callback was
      entered once and returned before the reply, or it did not decode and the callback
      was never entered. Its steps so far are known but for the last two. */
  lemma HandledMeansCalled(steps: seq<Step>, s: State, c: nat) returns (ok: bool)
    requires Path(Init(), steps, s) && c < |s.handled| && s.handled[c] == 1
    ensures c < |s.callbacks| && s.callbacks[c] == (if ok then 1 else 0)
    ensures Times(steps, Decode(c, ok)) == 1 && Times(steps, Decode(c, !ok)) == 0
    ensures if ok then [Decode(c, true), CallbackReturns(c), Reply(c)] <= HandlerSteps(steps, c)
            else [Decode(c, false), Reply(c)] <= HandlerSteps(steps, c)
    ensures HandlerSteps(steps, c) <= Script(c, ok)
  {
    FromInit(steps, s);
    HandlerFollowsScript(steps, s, c);
    CallsAreDecodes(steps, s, c);
    HandledHasTask(s, c);
    var done := HandlerSteps(steps, c);
    ok :| Follows(done, c, ok, s.tasks[c].pc);
    ScriptCounts(c, ok, s.tasks[c].pc, done);
    OnlyCounts(steps, step => OfHandler(step, c), Decode(c, true));
    OnlyCounts(steps, step => OfHandler(step, c), Decode(c, false));
    hide Path, Inv, Times, Only;
  }

  lemma HandledHasTask(s: State, c: nat)
    requires Inv(s) && c < |s.handled| && s.handled[c] == 1
    ensures c < |s.tasks| && s.tasks[c].pc in {Releasing, Finishing, Ended}
  {
  }

  lemma WholeScript(steps: seq<Step>, s: State, c: nat) returns (ok: bool)
    requires Path(Init(), steps, s) && c < |s.tasks| && s.tasks[c].pc == Ended
    ensures HandlerSteps(steps, c) == Script(c, ok)
    ensures Times(steps, Decode(c, true)) == (if ok then 1 else 0)
    ensures Times(steps, Decode(c, false)) == (if ok then 0 else 1)
  {
    HandlerFollowsScript(steps, s, c);
    var done := HandlerSteps(steps, c);
    ok :| Follows(done, c, ok, s.tasks[c].pc);
    ScriptCounts(c, ok, Ended, done);
    OnlyCounts(steps, step => OfHandler(step, c), Decode(c, true));
    OnlyCounts(steps, step => OfHandler(step, c), Decode(c, false));
    hide Path, Times, Only;
    assert Script(c, ok)[..|Script(c, ok)|] == Script(c, ok);
  }

  lemma AllEnded(s: State, after: seq<Step>, t: State, c: nat)
    requires Reachable(s) && SomeCloseReturned(s) && Path(s, after, t) && c < |t.handled|
    ensures s.handled == t.handled && s.callbacks == t.callbacks && t.handled[c] == 1
    ensures c < |s.tasks| && s.tasks[c].pc == Ended
    ensures forall j | 0 <= j < |after| :: IsCloseStep(after[j])
  {
    hide *;
    QuiescentAfterClose(s, after, t);
    QuietNow(s);
  }

  lemma QuietNow(s: State)
    requires Reachable(s) && SomeCloseReturned(s)
    ensures |s.handled| == |s.tasks| && forall i | 0 <= i < |s.tasks| :: s.tasks[i].pc == Ended
  {
    assert Path(s, [], s);
    QuiescentAfterClose(s, [], s);
  }

  /** After any Close has returned: every connection accepted has gone through its whole
      script, so every request that decoded was given to the callback exactly once and
      answered after it returned, and no other request was; and nothing more happens. */
  lemma ExactlyOnceAfterClose(before: seq<Step>, s: State, after: seq<Step>, t: State, c: nat) returns (ok: bool)
    requires Path(Init(), before, s) && SomeCloseReturned(s) && Path(s, after, t)
    requires c < |t.handled|
    ensures c < |s.handled| && HandlerSteps(before, c) == Script(c, ok) && HandlerSteps(after, c) == []
    ensures Times(before, Decode(c, true)) == (if ok then 1 else 0)
    ensures Times(before, Decode(c, false)) == (if ok then 0 else 1)
    ensures c < |t.callbacks| && t.callbacks[c] == (if ok then 1 else 0) && t.handled[c] == 1
  {
    assert Reachable(s);
    hide *;
    AllEnded(s, after, t, c);
    CallsAreDecodes(before, s, c);
    ok := WholeScript(before, s, c);
    NoneOf(after, c);
  }

  lemma {:induction false} NoneOf(steps: seq<Step>, c: nat)
    requires forall j | 0 <= j < |steps| :: IsCloseStep(steps[j])
    ensures HandlerSteps(steps, c) == []
  {
    if steps != [] {
      NoneOf(steps[..|steps| - 1], c);
    }
  }

  /** How many steps of a kind were taken. */
  function Number(steps: seq<Step>, kind: Step -> bool): nat { |Only(steps, kind)| }

  lemma NoneTaken()
    ensures forall kind :: Number([], kind) == 0
    ensures Init().sem == 0 && Init().wg == 1
  {
  }

  lemma OneMore(steps: seq<Step>, step: Step, kind: Step -> bool)
    ensures Number(steps + [step], kind) == Number(steps, kind) + (if kind(step) then 1 else 0)
  {
    assert (steps + [step])[..|steps|] == steps;
  }

  lemma CounterStep(steps: seq<Step>, u: State, step: Step)
    requires Enabled(u, step)
    ensures Apply(u, step).sem - u.sem ==
            Number(steps + [step], (x: Step) => x.Acquire?) - Number(steps, (x: Step) => x.Acquire?)
            - (Number(steps + [step], (x: Step) => x.Release?) - Number(steps, (x: Step) => x.Release?))
    ensures Apply(u, step).wg - u.wg ==
            Number(steps + [step], (x: Step) => x.Add?) - Number(steps, (x: Step) => x.Add?)
            - (Number(steps + [step], (x: Step) => x.Leave?) - Number(steps, (x: Step) => x.Leave?))
            - (Number(steps + [step], (x: Step) => x.Finish?) - Number(steps, (x: Step) => x.Finish?))
  {
    hide Number;
    OneMore(steps, step, (x: Step) => x.Acquire?);
    OneMore(steps, step, (x: Step) => x.Release?);
    OneMore(steps, step, (x: Step) => x.Add?);
    OneMore(steps, step, (x: Step) => x.Leave?);
    OneMore(steps, step, (x: Step) => x.Finish?);
  }

  /** The counters in steps taken: slots taken less slots given back; the acceptor, plus
      handlers added, less goroutines done; and never more than sixteen slots. */
  lemma {:induction false} CountersAreSteps(steps: seq<Step>, s: State)
    requires Path(Init(), steps, s)
    ensures s.sem == Number(steps, (x: Step) => x.Acquire?) - Number(steps, (x: Step) => x.Release?)
    ensures s.wg == 1 + Number(steps, (x: Step) => x.Add?)
                    - Number(steps, (x: Step) => x.Leave?) - Number(steps, (x: Step) => x.Finish?)
    ensures 0 <= s.sem <= 16 && s.wg >= 0
    decreases |steps|
  {
    hide Number, Apply, Enabled;
    FromInit(steps, s);
    if steps == [] {
      NoneTaken();
    } else {
      var n := |steps| - 1;
      var u := LastStep(Init(), steps, s);
      CountersAreSteps(steps[..n], u);
      CounterStep(steps[..n], u, steps[n]);
      assert steps == steps[..n] + [steps[n]];
    }
  }

  // ----- the acceptor

  predicate OfAcceptor(step: Step) {
    step in {Accept, AcceptFails, Acquire, Add, Spawn, Leave}
  }

  function AcceptorSteps(steps: seq<Step>): seq<Step> { Only(steps, OfAcceptor) }

  function AcceptRounds(n: nat): seq<Step> {
    if n == 0 then [] else AcceptRounds(n - 1) + [Accept, Acquire, Add, Spawn]
  }

  function AcceptTail(a: Acceptor): seq<Step> {
    match a
    case Accepting => []
    case Acquiring(_) => [Accept]
    case Adding(_) => [Accept, Acquire]
    case Spawning(_) => [Accept, Acquire, Add]
    case Exiting => [AcceptFails]
    case Exited => [AcceptFails, Leave]
  }

  /** The acceptor accepts, takes a slot, adds to the WaitGroup and starts a handler, in
      that order, once per handler, until Accept fails; then it leaves. */
  lemma {:induction false} AcceptorFollowsScript(steps: seq<Step>, s: State)
    requires Path(Init(), steps, s)
    ensures AcceptorSteps(steps) == AcceptRounds(|s.tasks|) + AcceptTail(s.acceptor)
    decreases |steps|
  {
    if steps != [] {
      var n := |steps| - 1;
      var u := LastStep(Init(), steps, s);
      AcceptorFollowsScript(steps[..n], u);
      AcceptorStep(u, steps[n]);
      if !OfAcceptor(steps[n]) { assert AcceptorSteps(steps[..n]) + [] == AcceptorSteps(steps[..n]); }
    }
  }

  lemma AcceptorStep(u: State, step: Step)
    requires Enabled(u, step)
    ensures var t := Apply(u, step);
            AcceptRounds(|t.tasks|) + AcceptTail(t.acceptor) ==
            AcceptRounds(|u.tasks|) + AcceptTail(u.acceptor) + (if OfAcceptor(step) then [step] else [])
  {
    if step.Spawn? {
      assert AcceptRounds(|u.tasks|) + [Accept, Acquire, Add] + [Spawn] ==
             AcceptRounds(|u.tasks|) + [Accept, Acquire, Add, Spawn] + [];
    }
  }

  // ----- the callers of Close

  predicate OfCloser(step: Step, k: nat) {
    step in {EnterOnce(k), CloseListener(k), SkipOnce(k), Wake(k)}
  }

  function CloserSteps(steps: seq<Step>, k: nat): seq<Step> {
    Only(steps, step => OfCloser(step, k))
  }

  function CloseScript(k: nat, first: bool): seq<Step> {
    if first then [EnterOnce(k), CloseListener(k), Wake(k)] else [SkipOnce(k), Wake(k)]
  }

  function CloseProgress(first: bool, c: Closer): nat {
    match c
    case AtOnce => 0
    case InOnce => 1
    case Waiting => if first then 2 else 1
    case Returned => if first then 3 else 2
  }

  predicate ClosesBy(done: seq<Step>, k: nat, first: bool, c: Closer) {
    done == CloseScript(k, first)[..CloseProgress(first, c)] && (c == InOnce ==> first)
  }

  ghost predicate OnCloseScript(steps: seq<Step>, s: State, k: nat) {
    if k < |s.closers| then exists first :: ClosesBy(CloserSteps(steps, k), k, first, s.closers[k])
    else CloserSteps(steps, k) == []
  }

  /** Every caller of Close either closes the listener or finds it done, and then waits;
      and there are as many callers as calls. */
  lemma {:induction false} CloserFollowsScript(steps: seq<Step>, s: State, k: nat)
    requires Path(Init(), steps, s)
    ensures OnCloseScript(steps, s, k)
    ensures |s.closers| == Times(steps, CallClose)
    decreases |steps|
  {
    if steps != [] {
      var n := |steps| - 1;
      var u := LastStep(Init(), steps, s);
      CloserFollowsScript(steps[..n], u, k);
      CloserStep(steps[..n], u, steps[n], k);
      assert steps == steps[..n] + [steps[n]];
    }
  }

  lemma CloserMoves(u: State, step: Step, k: nat, done: seq<Step>, first: bool) returns (now: bool)
    requires Enabled(u, step) && k < |u.closers| && ClosesBy(done, k, first, u.closers[k])
    ensures k < |Apply(u, step).closers|
    ensures ClosesBy(if OfCloser(step, k) then done + [step] else done, k, now, Apply(u, step).closers[k])
  {
    now := if step == SkipOnce(k) then false else if step == EnterOnce(k) then true else first;
  }

  lemma CloserJoins(u: State, step: Step, k: nat)
    requires Enabled(u, step) && k >= |u.closers|
    ensures !OfCloser(step, k)
    ensures k < |Apply(u, step).closers| ==> ClosesBy([], k, true, Apply(u, step).closers[k])
    ensures |Apply(u, step).closers| == |u.closers| + (if step == CallClose then 1 else 0)
  {
  }

  lemma CloserStep(steps: seq<Step>, u: State, step: Step, k: nat)
    requires Enabled(u, step) && OnCloseScript(steps, u, k)
    ensures OnCloseScript(steps + [step], Apply(u, step), k)
    ensures |Apply(u, step).closers| == |u.closers| + (if step == CallClose then 1 else 0)
  {
    hide Apply, Enabled, ClosesBy, OfCloser;
    assert (steps + [step])[..|steps|] == steps;
    var done := CloserSteps(steps, k);
    assert done + [] == done;
    assert CloserSteps(steps + [step], k) == if OfCloser(step, k) then done + [step] else done;
    CloserJoins(u, step, |u.closers|);
    if k < |u.closers| {
      var first :| ClosesBy(done, k, first, u.closers[k]);
      var now := CloserMoves(u, step, k, done, first);
    } else {
      CloserJoins(u, step, k);
    }
  }
}
