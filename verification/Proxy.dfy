/** The event loop of the PTY proxy: terminal input and socket messages go to the
    master through on_input, the master's output goes to the terminal through
    on_output. What each poll reports is an oracle. */
module Proxy {
  import opened Basics
  import opened Io
  import opened Framing

  const BUFFER := 4096
  const MAX_MESSAGE := 16384

  /** Something handed to on_input. */
  datatype Input = Typed(data: Bytes) | Message(data: Bytes)

  /** One round of the surroundings: poll's result and what goes on at each descriptor,
      and whether a client connects. */
  class Tick {
    const ready: int
    const stdinEvents: nat
    const masterEvents: nat
    const socketEvents: nat
    const client: Source?
    const clientFd: int
    const clientPolled: PollResult

    constructor (ready: int, stdinEvents: nat, masterEvents: nat, socketEvents: nat,
                 client: Source?, clientFd: int, clientPolled: PollResult)
      ensures this.ready == ready && this.stdinEvents == stdinEvents
      ensures this.masterEvents == masterEvents && this.socketEvents == socketEvents
      ensures this.client == client && this.clientFd == clientFd && this.clientPolled == clientPolled
    {
      this.ready, this.stdinEvents := ready, stdinEvents;
      this.masterEvents, this.socketEvents := masterEvents, socketEvents;
      this.client, this.clientFd, this.clientPolled := client, clientFd, clientPolled;
    }

    /** The master hung up (16) or failed (8), or poll failed. */
    predicate EndsLoop()
      ensures EndsLoop() <==> ready < 0 || masterEvents / 8 % 2 == 1 || masterEvents / 16 % 2 == 1
    {
      ready < 0 || Has(masterEvents, POLLHUP) || Has(masterEvents, POLLERR)
    }

    predicate Sane() {
      && stdinEvents < 0x1_0000 && masterEvents < 0x1_0000 && socketEvents < 0x1_0000
      && clientPolled.revents < 0x1_0000 && 0 <= clientFd < TWO_31
    }
  }

  function Forwarded(f: Bytes -> Bytes, chunks: seq<Bytes>): Bytes {
    if chunks == [] then [] else Forwarded(f, chunks[..|chunks| - 1]) + f(chunks[|chunks| - 1])
  }

  function Datas(inputs: seq<Input>): seq<Bytes> {
    if inputs == [] then [] else Datas(inputs[..|inputs| - 1]) + [inputs[|inputs| - 1].data]
  }

  function TypedOnly(inputs: seq<Input>): seq<Bytes> {
    if inputs == [] then []
    else TypedOnly(inputs[..|inputs| - 1])
         + (if inputs[|inputs| - 1].Typed? then [inputs[|inputs| - 1].data] else [])
  }

  // ----- what full reads take

  function Chunk(pending: Bytes): Bytes { pending[..Min(BUFFER, |pending|)] }

  /** The chunk one round reads from a stream with these events, if any. */
  function Taken(events: int, pending: Bytes): seq<Bytes> {
    if Has(events, POLLIN) && pending != [] then [Chunk(pending)] else []
  }

  function Left(events: int, pending: Bytes): Bytes {
    if Has(events, POLLIN) then pending[Min(BUFFER, |pending|)..] else pending
  }

  /** Stdin is kept open by data without a hang-up or an error. */
  predicate KeepsOpen(events: int, pending: Bytes) {
    !Has(events, POLLHUP) && !Has(events, POLLERR) && !(Has(events, POLLIN) && pending == [])
  }

  /** One round on the master: the chunk read and what is left. */
  function MasterStep(tick: Tick, pending: Bytes): (seq<Bytes>, Bytes) {
    if tick.ready < 0 then ([], pending) else (Taken(tick.masterEvents, pending), Left(tick.masterEvents, pending))
  }

  /** The chunks the given rounds read from the master, and what they leave. */
  function MasterRun(ticks: seq<Tick>, pending: Bytes): (seq<Bytes>, Bytes) {
    if ticks == [] then ([], pending)
    else
      var n := |ticks| - 1;
      var (chunks, left) := MasterRun(ticks[..n], pending);
      var (more, rest) := MasterStep(ticks[n], left);
      (chunks + more, rest)
  }

  /** The same for stdin, which is not read again once it is closed. */
  function StdinStep(tick: Tick, open: bool, pending: Bytes): (seq<Bytes>, bool, Bytes) {
    var events := tick.stdinEvents;
    if tick.ready < 0 || !open then ([], open, pending)
    else (Taken(events, pending), KeepsOpen(events, pending), Left(events, pending))
  }

  function StdinRun(ticks: seq<Tick>, open: bool, pending: Bytes): (seq<Bytes>, bool, Bytes) {
    if ticks == [] then ([], open, pending)
    else
      var n := |ticks| - 1;
      var (chunks, still, left) := StdinRun(ticks[..n], open, pending);
      var (more, stays, rest) := StdinStep(ticks[n], still, left);
      (chunks + more, stays, rest)
  }

  function AsTyped(chunks: seq<Bytes>): seq<Input> {
    if chunks == [] then [] else AsTyped(chunks[..|chunks| - 1]) + [Typed(chunks[|chunks| - 1])]
  }

  /** The message a round takes from its client, whose stream is `stream`. */
  function SocketTaken(tick: Tick, stream: Bytes): seq<Input> {
    if tick.EndsLoop() || !Has(tick.socketEvents, POLLIN) || !Readable(tick.clientPolled) then []
    else
      var r := ReadFrame(stream, MAX_MESSAGE).0;
      if r.Some? then [Message(r.value)] else []
  }

  /** Everything the given rounds hand to on_input: in each round the stdin chunk, if
      any, then the client's message, if any. `streams` are the clients' bytes. */
  function InputRun(ticks: seq<Tick>, streams: seq<Bytes>, open: bool, pending: Bytes): seq<Input>
    requires |streams| == |ticks|
  {
    if ticks == [] then []
    else
      var n := |ticks| - 1;
      var (_, still, left) := StdinRun(ticks[..n], open, pending);
      InputRun(ticks[..n], streams[..n], open, pending)
      + RoundInput(ticks[n], streams[n], still, left)
  }

  function RoundInput(tick: Tick, stream: Bytes, open: bool, pending: Bytes): seq<Input> {
    AsTyped(StdinStep(tick, open, pending).0) + SocketTaken(tick, stream)
  }

  // ----- what any reads, short ones included, can do in a round

  /** A state between rounds: what has passed through, and what is left to read. */
  datatype Moment = Moment(
    stdinOpen: bool,
    stdinCalls: nat,
    stdinLeft: Bytes,
    masterLeft: Bytes,
    inputs: seq<Input>,
    outputs: seq<Bytes>
  )

  /** Nothing, or one chunk from a readable descriptor. */
  predicate OneChunk(events: int, got: seq<Bytes>) {
    got == [] || (|got| == 1 && Has(events, POLLIN) && 0 < |got[0]| <= BUFFER)
  }

  /** Nothing, or one message from a connected client that is readable and has not hung up. */
  predicate OneMessage(tick: Tick, got: seq<Input>) {
    got == []
    || (&& |got| == 1 && got[0].Message? && 1 <= |got[0].data| <= MAX_MESSAGE
        && tick.client != null && Has(tick.socketEvents, POLLIN) && Readable(tick.clientPolled))
  }

  /** At most one typed chunk, from a stdin that is open, and after it at most one
      message, in a round that does not end the loop. */
  predicate AddsParts(tick: Tick, open: bool, added: seq<Input>, typed: seq<Bytes>, message: seq<Input>) {
    && added == AsTyped(typed) + message
    && OneChunk(tick.stdinEvents, typed) && OneMessage(tick, message)
    && (typed != [] ==> tick.ready >= 0 && open)
    && (message != [] ==> !tick.EndsLoop())
  }

  ghost predicate Adds(tick: Tick, open: bool, added: seq<Input>) {
    exists typed, message :: AddsParts(tick, open, added, typed, message)
  }

  /** One round, whatever the reads return. A closed stdin is neither read nor reopened. */
  ghost predicate Round(tick: Tick, b: Moment, c: Moment) {
    && b.inputs <= c.inputs && Adds(tick, b.stdinOpen, c.inputs[|b.inputs|..])
    && b.outputs <= c.outputs && OneChunk(tick.masterEvents, c.outputs[|b.outputs|..])
    && (!b.stdinOpen ==> !c.stdinOpen && c.stdinCalls == b.stdinCalls && c.stdinLeft == b.stdinLeft)
    && (!Has(tick.masterEvents, POLLIN) ==> c.masterLeft == b.masterLeft)
    && (tick.ready < 0 ==> c == b)
    && (tick.ready >= 0 && (Has(tick.stdinEvents, POLLHUP) || Has(tick.stdinEvents, POLLERR)) ==> !c.stdinOpen)
  }

  /** Which of the reads are full. */
  datatype Full = Full(master: bool, stdin: bool, clients: bool)

  /** A round that passed on exactly what its events call for, as far as reads are full. */
  ghost predicate StepExact(tick: Tick, stream: Bytes, b: Moment, c: Moment, full: Full) {
    var (shown, masterLeft) := MasterStep(tick, b.masterLeft);
    var (typed, open, stdinLeft) := StdinStep(tick, b.stdinOpen, b.stdinLeft);
    && (full.master ==> c.outputs == b.outputs + shown && c.masterLeft == masterLeft)
    && (full.stdin ==>
          && TypedOnly(c.inputs) == TypedOnly(b.inputs) + typed
          && c.stdinOpen == open && c.stdinLeft == stdinLeft)
    && (full.stdin && full.clients ==> c.inputs == b.inputs + RoundInput(tick, stream, b.stdinOpen, b.stdinLeft))
  }

  /** The same over several rounds. */
  ghost predicate RunExact(ticks: seq<Tick>, streams: seq<Bytes>, b: Moment, c: Moment, full: Full)
    requires |streams| == |ticks|
  {
    var (shown, masterLeft) := MasterRun(ticks, b.masterLeft);
    var (typed, open, stdinLeft) := StdinRun(ticks, b.stdinOpen, b.stdinLeft);
    && (full.master ==> c.outputs == b.outputs + shown && c.masterLeft == masterLeft)
    && (full.stdin ==>
          && TypedOnly(c.inputs) == TypedOnly(b.inputs) + typed
          && c.stdinOpen == open && c.stdinLeft == stdinLeft)
    && (full.stdin && full.clients ==> c.inputs == b.inputs + InputRun(ticks, streams, b.stdinOpen, b.stdinLeft))
  }

  /** The moments between the first rounds. */
  ghost predicate Rounds(ticks: seq<Tick>, trace: seq<Moment>) {
    && 0 < |trace| <= |ticks| + 1
    && forall j | 0 <= j < |trace| - 1 :: Round(ticks[j], trace[j], trace[j + 1])
  }

  /** From the moment stdin is closed it is neither read nor reopened. */
  predicate ClosedForGood(trace: seq<Moment>) {
    forall i, j | 0 <= i <= j < |trace| && !trace[i].stdinOpen ::
      !trace[j].stdinOpen && trace[j].stdinCalls == trace[i].stdinCalls
  }

  /** Every message handed over in a round is framed at the front of that round's stream. */
  predicate Framed(b: Moment, c: Moment, stream: Bytes) {
    forall k | |b.inputs| <= k < |c.inputs| && c.inputs[k].Message? :: Frame(c.inputs[k].data) <= stream
  }

  ghost predicate AllFramed(trace: seq<Moment>, streams: seq<Bytes>) {
    |trace| <= |streams| + 1 && forall j | 0 <= j < |trace| - 1 :: Framed(trace[j], trace[j + 1], streams[j])
  }

  /** Each connection is a new one. */
  predicate Distinct(ticks: seq<Tick>) {
    forall i, j | 0 <= i < j < |ticks| && ticks[i].client != null :: ticks[i].client != ticks[j].client
  }

  ghost predicate ClientsFull(ticks: seq<Tick>) {
    forall t | t in ticks && t.client != null :: t.client.Full()
  }

  /** What a round's client has sent; nothing when none connects. */
  function Stream(tick: Tick): Bytes
    reads tick.client
  {
    if tick.client == null then [] else tick.client.pending
  }

  ghost function Streams(ticks: seq<Tick>): (r: seq<Bytes>)
    reads set t | t in ticks && t.client != null :: t.client
    ensures |r| == |ticks| && forall i | 0 <= i < |ticks| :: r[i] == Stream(ticks[i])
  {
    if ticks == [] then [] else Streams(ticks[..|ticks| - 1]) + [Stream(ticks[|ticks| - 1])]
  }

  function Identity(b: Bytes): Bytes { b }

  lemma {:induction false} ForwardedMore(f: Bytes -> Bytes, chunks: seq<Bytes>, x: Bytes)
    ensures Forwarded(f, chunks + [x]) == Forwarded(f, chunks) + f(x)
  {
    assert (chunks + [x])[..|chunks|] == chunks;
  }

  /** A chunk read moves from the unread part of a stream to the read part. */
  lemma ChunkMoves(stream: Bytes, chunks: seq<Bytes>, pending: Bytes, data: Bytes, rest: Bytes)
    requires stream == Forwarded(Identity, chunks) + pending && pending == data + rest
    ensures stream == Forwarded(Identity, chunks + [data]) + rest
  {
    ForwardedMore(Identity, chunks, data);
  }

  lemma {:induction false} InputsMore(inputs: seq<Input>, x: Input)
    ensures Datas(inputs + [x]) == Datas(inputs) + [x.data]
    ensures TypedOnly(inputs + [x]) == if x.Typed? then TypedOnly(inputs) + [x.data] else TypedOnly(inputs)
  {
    assert (inputs + [x])[..|inputs|] == inputs;
  }

  lemma NothingSent(tick: Tick)
    ensures SocketTaken(tick, []) == []
  {
  }

  /** A round put together from its three parts. */
  lemma RoundOf(tick: Tick, b: Moment, c: Moment, typed: seq<Bytes>, shown: seq<Bytes>, message: seq<Input>)
    requires c.inputs == b.inputs + AsTyped(typed) + message && c.outputs == b.outputs + shown
    requires OneChunk(tick.stdinEvents, typed) && OneChunk(tick.masterEvents, shown) && OneMessage(tick, message)
    requires tick.ready >= 0 && (typed != [] ==> b.stdinOpen) && (message != [] ==> !tick.EndsLoop())
    requires !b.stdinOpen ==> !c.stdinOpen && c.stdinCalls == b.stdinCalls && c.stdinLeft == b.stdinLeft
    requires !Has(tick.masterEvents, POLLIN) ==> c.masterLeft == b.masterLeft
    requires Has(tick.stdinEvents, POLLHUP) || Has(tick.stdinEvents, POLLERR) ==> !c.stdinOpen
    ensures Round(tick, b, c)
    ensures forall k | |b.inputs| <= k < |c.inputs| && c.inputs[k].Message? :: message != [] && c.inputs[k] == message[0]
  {
    hide Has, Readable, AsTyped;
    var added := c.inputs[|b.inputs|..];
    assert added == AsTyped(typed) + message;
    assert AddsParts(tick, b.stdinOpen, added, typed, message);
    AllTyped(typed);
    forall k | |b.inputs| <= k < |c.inputs| && c.inputs[k].Message? ensures message != [] && c.inputs[k] == message[0] {
      assert c.inputs[k] == added[k - |b.inputs|];
    }
  }

  lemma {:induction false} AllTyped(chunks: seq<Bytes>)
    ensures |AsTyped(chunks)| == |chunks| && forall i | 0 <= i < |chunks| :: AsTyped(chunks)[i].Typed?
  {
    if chunks != [] {
      AllTyped(chunks[..|chunks| - 1]);
    }
  }

  lemma NoRounds(ticks: seq<Tick>, streams: seq<Bytes>, b: Moment, full: Full)
    requires |streams| == |ticks|
    ensures RunExact(ticks[..0], streams[..0], b, b, full)
    ensures Rounds(ticks, [b]) && AllFramed([b], streams)
  {
    assert ticks[..0] == [] && streams[..0] == [];
    assert InputRun([], [], b.stdinOpen, b.stdinLeft) == [];
    assert b.inputs + [] == b.inputs && b.outputs + [] == b.outputs && TypedOnly(b.inputs) + [] == TypedOnly(b.inputs);
  }

  lemma RoundsMore(ticks: seq<Tick>, trace: seq<Moment>, c: Moment)
    requires Rounds(ticks, trace) && |trace| <= |ticks| && Round(ticks[|trace| - 1], trace[|trace| - 1], c)
    ensures Rounds(ticks, trace + [c])
  {
  }

  lemma FramedMore(trace: seq<Moment>, streams: seq<Bytes>, c: Moment)
    requires 0 < |trace| <= |streams| && AllFramed(trace, streams)
    requires Framed(trace[|trace| - 1], c, streams[|trace| - 1])
    ensures AllFramed(trace + [c], streams)
  {
  }

  lemma {:induction false} ClosedStays(ticks: seq<Tick>, trace: seq<Moment>)
    requires Rounds(ticks, trace)
    ensures ClosedForGood(trace)
  {
    if |trace| > 1 {
      var n := |trace| - 1;
      var before := trace[..n];
      ClosedStays(ticks, before);
      assert Round(ticks[n - 1], trace[n - 1], trace[n]);
      forall i, j | 0 <= i <= j <= n && !trace[i].stdinOpen
        ensures !trace[j].stdinOpen && trace[j].stdinCalls == trace[i].stdinCalls
      {
        if i < n {
          assert !before[i].stdinOpen && before[i] == trace[i];
          assert !before[n - 1].stdinOpen && before[n - 1].stdinCalls == before[i].stdinCalls;
          if j < n { assert before[j] == trace[j]; }
        }
      }
    }
  }

  lemma RunExactMore(ticks: seq<Tick>, streams: seq<Bytes>, r: nat, b: Moment, m: Moment, c: Moment, full: Full,
                     stream: Bytes, client: bool)
    requires r < |ticks| == |streams|
    requires RunExact(ticks[..r], streams[..r], b, m, full)
    requires StepExact(ticks[r], stream, m, c, full.(clients := client))
    requires full.clients ==> client && stream == streams[r]
    ensures RunExact(ticks[..r + 1], streams[..r + 1], b, c, full)
  {
    hide TypedOnly, RoundInput, MasterStep, StdinStep;
    assert ticks[..r + 1][..r] == ticks[..r];
    assert streams[..r + 1][..r] == streams[..r];
  }

  lemma FramedBy(b: Moment, c: Moment, before: Bytes, after: Bytes)
    requires forall k | |b.inputs| <= k < |c.inputs| && c.inputs[k].Message? :: before == Frame(c.inputs[k].data) + after
    ensures Framed(b, c, before)
  {
  }

  /** A round that passes nothing on. */
  lemma NoParts(tick: Tick, b: Moment)
    ensures OneChunk(tick.stdinEvents, []) && OneChunk(tick.masterEvents, []) && OneMessage(tick, [])
    ensures AsTyped([]) == []
    ensures tick.ready < 0 ==> Round(tick, b, b)
  {
    if tick.ready < 0 {
      var added := b.inputs[|b.inputs|..];
      assert added == AsTyped([]) + [];
      assert AddsParts(tick, b.stdinOpen, added, [], []);
      assert b.outputs[|b.outputs|..] == [];
    }
  }

  lemma OneTyped(data: Bytes)
    ensures AsTyped([data]) == [Typed(data)] && AsTyped([]) == []
  {
    assert [data][..0] == [];
  }

  lemma {:induction false} TypedMore(inputs: seq<Input>, chunks: seq<Bytes>)
    ensures TypedOnly(inputs + AsTyped(chunks)) == TypedOnly(inputs) + chunks
  {
    hide TypedOnly;
    if chunks == [] {
      assert inputs + [] == inputs;
    } else {
      var n := |chunks| - 1;
      TypedMore(inputs, chunks[..n]);
      InputsMore(inputs + AsTyped(chunks[..n]), Typed(chunks[n]));
      assert inputs + AsTyped(chunks) == inputs + AsTyped(chunks[..n]) + [Typed(chunks[n])];
      assert chunks == chunks[..n] + [chunks[n]];
    }
  }

  /** What reaches on_input and what is typed, element by element. */
  lemma InputsInOrder(inputs: seq<Input>, k: nat)
    requires k < |inputs|
    ensures |Datas(inputs)| == |inputs| && Datas(inputs)[k] == inputs[k].data
    ensures TypedOnly(inputs) ==
            TypedOnly(inputs[..k]) + (if inputs[k].Typed? then [inputs[k].data] else []) + TypedOnly(inputs[k + 1..])
  {
    DatasAt(inputs, k);
    TypedAround(inputs, k);
  }

  lemma {:induction false} DatasAt(inputs: seq<Input>, k: nat)
    requires k < |inputs|
    ensures |Datas(inputs)| == |inputs| && Datas(inputs)[k] == inputs[k].data
  {
    DatasLength(inputs[..|inputs| - 1]);
    if k < |inputs| - 1 {
      DatasAt(inputs[..|inputs| - 1], k);
    }
  }

  lemma {:induction false} TypedAround(inputs: seq<Input>, k: nat)
    requires k < |inputs|
    ensures TypedOnly(inputs) ==
            TypedOnly(inputs[..k]) + (if inputs[k].Typed? then [inputs[k].data] else []) + TypedOnly(inputs[k + 1..])
  {
    var n := |inputs| - 1;
    if k < n {
      TypedAround(inputs[..n], k);
      assert inputs[..n][..k] == inputs[..k];
      assert inputs[k + 1..][..n - k - 1] == inputs[..n][k + 1..];
    } else {
      assert inputs[k + 1..] == [];
    }
  }

  lemma {:induction false} DatasLength(inputs: seq<Input>)
    ensures |Datas(inputs)| == |inputs|
  {
    if inputs != [] {
      DatasLength(inputs[..|inputs| - 1]);
    }
  }

  /** What is forwarded: each chunk transformed once, in its place. */
  lemma {:induction false} ForwardedInOrder(f: Bytes -> Bytes, chunks: seq<Bytes>, k: nat)
    requires k < |chunks|
    ensures Forwarded(f, chunks) == Forwarded(f, chunks[..k]) + f(chunks[k]) + Forwarded(f, chunks[k + 1..])
    ensures Forwarded(f, []) == []
  {
    var n := |chunks| - 1;
    if k < n {
      ForwardedInOrder(f, chunks[..n], k);
      assert chunks[..n][..k] == chunks[..k];
      assert chunks[k + 1..][..n - k - 1] == chunks[..n][k + 1..];
    } else {
      assert chunks[k + 1..] == [];
    }
  }

  /** A round in numbers. Of the master: at most 4096 bytes, when poll reports input (1). */
  lemma MasterStepInNumbers(tick: Tick, pending: Bytes)
    ensures var k := if |pending| <= 4096 then |pending| else 4096;
            MasterStep(tick, pending) ==
            if tick.ready < 0 || tick.masterEvents % 2 == 0 || pending == [] then ([], pending)
            else ([pending[..k]], pending[k..])
  {
  }

  /** Of stdin, while it is open: the same, and it stays open unless poll reports an
      error (8), a hang-up (16), or input where there is none left. */
  lemma StdinStepInNumbers(tick: Tick, open: bool, pending: Bytes)
    ensures var k := if |pending| <= 4096 then |pending| else 4096;
            var events := tick.stdinEvents;
            StdinStep(tick, open, pending) ==
            if tick.ready < 0 || !open then ([], open, pending)
            else if events % 2 == 0 then ([], events / 8 % 2 == 0 && events / 16 % 2 == 0, pending)
            else if pending == [] then ([], false, [])
            else ([pending[..k]], events / 8 % 2 == 0 && events / 16 % 2 == 0, pending[k..])
  {
  }

  /** Of the socket: a message of 1 to 16384 bytes, if the loop goes on, a connection is
      reported, and the client has input and neither an error nor a hang-up. */
  lemma SocketTakenInNumbers(tick: Tick, m: Bytes, rest: Bytes)
    requires |m| < TWO_31
    ensures SocketTaken(tick, Frame(m) + rest) ==
            if tick.ready >= 0 && tick.masterEvents / 8 % 2 == 0 && tick.masterEvents / 16 % 2 == 0
               && tick.socketEvents % 2 == 1 && tick.clientPolled.ready > 0 && tick.clientPolled.revents % 2 == 1
               && tick.clientPolled.revents / 8 % 2 == 0 && tick.clientPolled.revents / 16 % 2 == 0
               && 1 <= |m| <= 16384
            then [Message(m)] else []
  {
    if 1 <= |m| <= 16384 {
      ReadFrameIff(Frame(m) + rest, 16384, m, rest);
    } else {
      NoMessage(m, rest);
    }
    hide ReadFrame, Frame;
  }

  lemma NoMessage(m: Bytes, rest: Bytes)
    requires |m| < TWO_31 && (|m| == 0 || |m| > 16384)
    ensures ReadFrame(Frame(m) + rest, 16384).0.None?
  {
    SignedRoundTrip(|m|);
    BadLengthRefused(LittleEndian(|m|), m + rest, 16384);
    assert Frame(m) + rest == LittleEndian(|m|) + (m + rest);
  }

  class Agent {
    const masterFd: int
    const socketFd: int
    const onInput: Bytes -> Bytes
    const onOutput: Bytes -> Bytes
    const stdin: Source
    const masterOut: Source
    const stdout: Sink
    const masterIn: Sink
    var stdinOpen: bool

    // What has passed through so far, and where the streams began.
    ghost const stdinStream: Bytes
    ghost const masterStream: Bytes
    ghost var inputs: seq<Input>
    ghost var outputs: seq<Bytes>
    ghost var writeFailed: bool

    ghost const Repr: set<object>

    constructor (masterFd: int, socketFd: int, onInput: Bytes -> Bytes, onOutput: Bytes -> Bytes,
                 stdin: Source, masterOut: Source, stdout: Sink, masterIn: Sink)
      requires 0 < masterFd < TWO_31 && 0 < socketFd < TWO_31 && masterFd != socketFd
      requires stdin != masterOut && stdout != masterIn
      requires ReadsFair(stdin.schedule) && ReadsFair(masterOut.schedule)
      requires WritesFair(stdout.schedule) && WritesFair(masterIn.schedule)
      requires stdout.delivered == [] && masterIn.delivered == []
      ensures Valid() && stdinOpen && !writeFailed && inputs == [] && outputs == []
      ensures this.stdin == stdin && this.masterOut == masterOut && this.stdout == stdout && this.masterIn == masterIn
      ensures this.onInput == onInput && this.onOutput == onOutput
      ensures stdinStream == stdin.pending && masterStream == masterOut.pending
    {
      this.masterFd, this.socketFd := masterFd, socketFd;
      this.onInput, this.onOutput := onInput, onOutput;
      this.stdin, this.masterOut, this.stdout, this.masterIn := stdin, masterOut, stdout, masterIn;
      stdinOpen := true;
      stdinStream, masterStream := stdin.pending, masterOut.pending;
      inputs, outputs, writeFailed := [], [], false;
      Repr := {this, stdin, masterOut, stdout, masterIn};
    }

    ghost predicate Valid()
      reads this, stdin, masterOut, stdout, masterIn
    {
      && Repr == {this, stdin, masterOut, stdout, masterIn}
      && 0 < masterFd < TWO_31 && 0 < socketFd < TWO_31 && masterFd != socketFd
      && stdin != masterOut && stdout != masterIn
      && ReadsFair(stdin.schedule) && ReadsFair(masterOut.schedule)
      && WritesFair(stdout.schedule) && WritesFair(masterIn.schedule)
      && Transparent()
    }

    /** What was read is a prefix of each stream, in order; and as long as no write has
        failed, what was written is what was read, transformed chunk by chunk, in order. */
    ghost predicate Transparent()
      reads this, stdin, masterOut, stdout, masterIn
    {
      && stdinStream == Forwarded(Identity, TypedOnly(inputs)) + stdin.pending
      && masterStream == Forwarded(Identity, outputs) + masterOut.pending
      && (!writeFailed ==> stdout.delivered == Forwarded(onOutput, outputs))
      && (!writeFailed ==> masterIn.delivered == Forwarded(onInput, Datas(inputs)))
    }

    /** Something for the master's input: transformed by on_input and written. */
    method SendInput(x: Input)
      requires Repr == {this, stdin, masterOut, stdout, masterIn}
      requires stdout != masterIn && WritesFair(masterIn.schedule)
      requires !writeFailed ==> masterIn.delivered == Forwarded(onInput, Datas(inputs))
      modifies this`inputs, this`writeFailed, masterIn
      ensures inputs == old(inputs) + [x]
      ensures old(writeFailed) ==> writeFailed
      ensures !writeFailed ==> masterIn.delivered == Forwarded(onInput, Datas(inputs))
      ensures masterIn.Reliable() && !old(writeFailed) ==> !writeFailed
    {
      var processed := onInput(x.data);
      var n := IoWrite(masterIn, processed);
      if n < 0 {
        writeFailed := true;
      }
      InputsMore(inputs, x);
      ForwardedMore(onInput, Datas(inputs), x.data);
      inputs := inputs + [x];
    }

    /** The stdin part of a round; `got` is the chunk read, if any. */
    method ReadStdin(events: nat) returns (ghost got: seq<Bytes>)
      requires Valid() && stdinOpen
      modifies this`inputs, this`writeFailed, this`stdinOpen, stdin, masterIn
      ensures Valid()
      ensures outputs == old(outputs) && inputs == old(inputs) + AsTyped(got)
      ensures OneChunk(events, got)
      ensures old(writeFailed) ==> writeFailed
      ensures masterIn.Reliable() && !old(writeFailed) ==> !writeFailed
      ensures Has(events, POLLHUP) || Has(events, POLLERR) ==> !stdinOpen
      ensures stdin.Full() ==>
                && got == Taken(events, old(stdin.pending))
                && stdin.pending == Left(events, old(stdin.pending))
                && stdinOpen == KeepsOpen(events, old(stdin.pending))
      ensures !Has(events, POLLIN) ==> stdin.pending == old(stdin.pending)
    {
      hide ReadsFair, WritesFair, Forwarded, TypedOnly, Datas, Has, AsTyped, Source.Full, Sink.Reliable;
      OneTyped([]);
      got := [];
      if Has(events, POLLIN) {
        var n, data := IoRead(stdin, BUFFER);
        if n > 0 {
          InputsMore(inputs, Typed(data));
          ChunkMoves(stdinStream, TypedOnly(inputs), old(stdin.pending), data, stdin.pending);
          SendInput(Typed(data));
          OneTyped(data);
          got := [data];
        } else {
          stdinOpen := false;
        }
      }
      if Has(events, POLLHUP) || Has(events, POLLERR) {
        stdinOpen := false;
      }
    }

    /** The master part of a round. */
    method ReadMaster(events: nat) returns (ghost got: seq<Bytes>)
      requires Valid()
      modifies this`outputs, this`writeFailed, masterOut, stdout
      ensures Valid()
      ensures inputs == old(inputs) && outputs == old(outputs) + got
      ensures OneChunk(events, got)
      ensures old(writeFailed) ==> writeFailed
      ensures stdout.Reliable() && !old(writeFailed) ==> !writeFailed
      ensures masterOut.Full() ==>
                && got == Taken(events, old(masterOut.pending))
                && masterOut.pending == Left(events, old(masterOut.pending))
      ensures !Has(events, POLLIN) ==> masterOut.pending == old(masterOut.pending)
    {
      hide ReadsFair, WritesFair, Forwarded, TypedOnly, Datas, Has, Source.Full, Sink.Reliable;
      got := [];
      if Has(events, POLLIN) {
        var n, data := IoRead(masterOut, BUFFER);
        if n > 0 {
          ChunkMoves(masterStream, outputs, old(masterOut.pending), data, masterOut.pending);
          ForwardedMore(onOutput, outputs, data);
          var m := IoWrite(stdout, onOutput(data));
          if m < 0 {
            writeFailed := true;
          }
          outputs := outputs + [data];
          got := [data];
        }
      }
    }

    /** The socket part of a round; `got` is the message taken, if any. For every schedule
        of reads it is taken only if exactly its frame was consumed. */
    method ReadSocket(tick: Tick) returns (ghost got: seq<Input>)
      requires Valid() && tick.Sane()
      requires tick.client != null ==> tick.client !in Repr && ReadsFair(tick.client.schedule)
      modifies this`inputs, this`writeFailed, masterIn, tick.client
      ensures Valid()
      ensures outputs == old(outputs) && inputs == old(inputs) + got
      ensures TypedOnly(inputs) == TypedOnly(old(inputs))
      ensures OneMessage(tick, got)
      ensures got != [] ==> old(Stream(tick)) == Frame(got[0].data) + Stream(tick)
      ensures old(writeFailed) ==> writeFailed
      ensures masterIn.Reliable() && !old(writeFailed) ==> !writeFailed
      ensures (tick.client != null ==> tick.client.Full()) && !tick.EndsLoop() ==>
                got == SocketTaken(tick, old(Stream(tick)))
    {
      hide ReadsFair, WritesFair, Forwarded, TypedOnly, Datas, Has, Frame, ReadFrame, Source.Full, Sink.Reliable;
      got := [];
      NothingSent(tick);
      if Has(tick.socketEvents, POLLIN) && tick.client != null {
        var r := ReadSocketMessage(tick.client, tick.clientFd, tick.clientPolled, MAX_MESSAGE);
        if r.Some? {
          InputsMore(inputs, Message(r.value));
          SendInput(Message(r.value));
          got := [Message(r.value)];
        }
      }
    }

    ghost function Now(): Moment
      reads this, stdin, masterOut
    {
      Moment(stdinOpen, stdin.calls, stdin.pending, masterOut.pending, inputs, outputs)
    }

    /** A round after poll has returned: the chunk typed, the chunk shown, the message. */
    method Dispatch(tick: Tick, fds: Bytes)
      returns (go: bool, ghost typed: seq<Bytes>, ghost shown: seq<Bytes>, ghost message: seq<Input>)
      requires Valid() && tick.Sane() && tick.ready >= 0
      requires tick.client != null ==> tick.client !in Repr && ReadsFair(tick.client.schedule)
      requires |fds| == 24 && (stdinOpen ==> PollfdRevents(fds, 0) == tick.stdinEvents)
      requires PollfdRevents(fds, 1) == tick.masterEvents && PollfdRevents(fds, 2) == tick.socketEvents
      modifies this, stdin, masterOut, stdout, masterIn, tick.client
      ensures Valid()
      ensures go <==> !tick.EndsLoop()
      ensures inputs == old(inputs) + AsTyped(typed) + message && outputs == old(outputs) + shown
      ensures TypedOnly(inputs) == TypedOnly(old(inputs)) + typed
      ensures OneChunk(tick.stdinEvents, typed) && OneChunk(tick.masterEvents, shown) && OneMessage(tick, message)
      ensures typed != [] ==> old(stdinOpen)
      ensures message != [] ==> go && old(Stream(tick)) == Frame(message[0].data) + Stream(tick)
      ensures !old(stdinOpen) ==> !stdinOpen && stdin.calls == old(stdin.calls) && stdin.pending == old(stdin.pending)
      ensures Has(tick.stdinEvents, POLLHUP) || Has(tick.stdinEvents, POLLERR) ==> !stdinOpen
      ensures !Has(tick.masterEvents, POLLIN) ==> masterOut.pending == old(masterOut.pending)
      ensures old(writeFailed) ==> writeFailed
      ensures stdout.Reliable() && masterIn.Reliable() && !old(writeFailed) ==> !writeFailed
      ensures masterOut.Full() ==> (shown, masterOut.pending) == MasterStep(tick, old(masterOut.pending))
      ensures stdin.Full() ==>
                (typed, stdinOpen, stdin.pending) == StdinStep(tick, old(stdinOpen), old(stdin.pending))
      ensures (tick.client != null ==> tick.client.Full()) ==> message == SocketTaken(tick, old(Stream(tick)))
    {
      hide ReadsFair, WritesFair, Forwarded, TypedOnly, Datas, Has, AsTyped, Transparent;
      hide Source.Full, Sink.Reliable, Readable, Frame, ReadFrame, OneChunk, OneMessage, Taken, Left, KeepsOpen;
      NoParts(tick, Now());
      typed, message := [], [];
      if stdinOpen {
        typed := ReadStdin(PollfdRevents(fds, 0));
      }
      TypedMore(old(inputs), typed);
      var masterRevents := PollfdRevents(fds, 1);
      shown := ReadMaster(masterRevents);
      if Has(masterRevents, POLLHUP) || Has(masterRevents, POLLERR) {
        return false, typed, shown, message;
      }
      if Has(PollfdRevents(fds, 2), POLLIN) {
        message := ReadSocket(tick);
      }
      go := true;
    }

    /** What a tick makes happen at each descriptor. */
    function Happening(tick: Tick): int -> nat {
      fd => if fd == 0 then tick.stdinEvents
            else if fd == masterFd then tick.masterEvents
            else if fd == socketFd then tick.socketEvents
            else 0
    }

    /** The buffer handed to poll: input on stdin (0) while it is open, on the master and
        on the socket. What poll then reports of them is what the tick makes happen. */
    method PackEntries() returns (fds: Bytes)
      requires Valid()
      ensures |fds| == 24
      ensures Asked(fds, 0) == (if stdinOpen then (0, 1) else (-1, 0))
      ensures Asked(fds, 1) == (masterFd, 1) && Asked(fds, 2) == (socketFd, 1)
    {
      var entries := [if stdinOpen then (0, POLLIN) else (-1, 0), (masterFd, POLLIN), (socketFd, POLLIN)];
      fds := PollfdPack(entries);
      AskedIsPacked(entries, 0);
      AskedIsPacked(entries, 1);
      AskedIsPacked(entries, 2);
    }

    /** Asks poll and returns what it reports. */
    method AskPoll(tick: Tick) returns (fds: Bytes, ghost asked: seq<(int, int)>)
      requires Valid() && tick.Sane()
      ensures asked == [if stdinOpen then (0, 1) else (-1, 0), (masterFd, 1), (socketFd, 1)]
      ensures |fds| == 24 && (stdinOpen ==> PollfdRevents(fds, 0) == tick.stdinEvents)
      ensures PollfdRevents(fds, 1) == tick.masterEvents && PollfdRevents(fds, 2) == tick.socketEvents
    {
      hide Asked, PollfdRevents, Transparent, ReadsFair, WritesFair;
      fds := PackEntries();
      asked := [Asked(fds, 0), Asked(fds, 1), Asked(fds, 2)];
      fds := Poll(fds, 3, Happening(tick));
    }

    /** poll_once: false when the loop should exit. `asked` is what it hands to poll. For every schedule of reads, what a
        round can pass on, a message only if its frame was consumed; with full reads,
        exactly which chunks and which message. */
    method PollOnce(tick: Tick) returns (go: bool, ghost asked: seq<(int, int)>)
      requires Valid() && tick.Sane()
      requires tick.client != null ==> tick.client !in Repr && ReadsFair(tick.client.schedule)
      modifies this, stdin, masterOut, stdout, masterIn, tick.client
      ensures Valid()
      ensures asked == [if old(stdinOpen) then (0, 1) else (-1, 0), (masterFd, 1), (socketFd, 1)]
      ensures go <==> tick.ready >= 0 && tick.masterEvents / 8 % 2 == 0 && tick.masterEvents / 16 % 2 == 0
      ensures Round(tick, old(Now()), Now())
      ensures forall k | |old(inputs)| <= k < |inputs| && inputs[k].Message? ::
                old(Stream(tick)) == Frame(inputs[k].data) + Stream(tick)
      ensures old(writeFailed) ==> writeFailed
      ensures stdout.Reliable() && masterIn.Reliable() && !old(writeFailed) ==> !writeFailed
      ensures StepExact(tick, old(Stream(tick)), old(Now()), Now(),
                        Full(masterOut.Full(), stdin.Full(), tick.client != null ==> tick.client.Full()))
    {
      hide Transparent, ReadsFair, WritesFair, TypedOnly, AsTyped, Packed, Polled, Taken, Left, KeepsOpen;
      hide Source.Full, Sink.Reliable, Readable, Frame, ReadFrame, OneChunk, OneMessage, Round;
      ghost var b := Now();
      NoParts(tick, b);
      hide PollfdRevents, Has;
      var fds;
      fds, asked := AskPoll(tick);
      if tick.ready < 0 {
        return false, asked;
      }
      ghost var typed, shown, message;
      go, typed, shown, message := Dispatch(tick, fds);
      RoundOf(tick, b, Now(), typed, shown, message);
    }

    /** poll succeeds and the master reports neither an error (8) nor a hang-up (16). */
    static predicate GoesOn(tick: Tick) {
      tick.ready >= 0 && tick.masterEvents / 8 % 2 == 0 && tick.masterEvents / 16 % 2 == 0
    }

    /** What run needs of its rounds. */
    ghost predicate CanRun(ticks: seq<Tick>)
      reads this, stdin, masterOut, stdout, masterIn
    {
      && Valid()
      && forall t | t in ticks ::
           t.Sane() && (t.client != null ==> t.client !in Repr && ReadsFair(t.client.schedule))
    }

    /** What holds after `rounds` rounds, `trace` being the moments so far. */
    ghost predicate RanSoFar(ticks: seq<Tick>, streams: seq<Bytes>, rounds: nat, trace: seq<Moment>)
      requires |streams| == |ticks|
      reads this, stdin, masterOut, stdout, masterIn, set t | t in ticks && t.client != null :: t.client
    {
      && rounds <= |ticks| && |trace| == rounds + 1 && trace[rounds] == Now()
      && Rounds(ticks, trace)
      && (Distinct(ticks) ==>
            AllFramed(trace, streams) && forall j | rounds <= j < |ticks| :: Stream(ticks[j]) == streams[j])
      && RunExact(ticks[..rounds], streams[..rounds], trace[0], Now(), FullReads(ticks))
    }

    ghost function FullReads(ticks: seq<Tick>): Full {
      Full(masterOut.Full(), stdin.Full(), Distinct(ticks) && ClientsFull(ticks))
    }

    /** One turn of run's loop. */
    method NextRound(ticks: seq<Tick>, rounds: nat, ghost streams: seq<Bytes>, ghost trace: seq<Moment>)
      returns (go: bool, ghost longer: seq<Moment>)
      requires CanRun(ticks) && |streams| == |ticks| && rounds < |ticks|
      requires RanSoFar(ticks, streams, rounds, trace) && |trace| > 0
      modifies this, stdin, masterOut, stdout, masterIn, ticks[rounds].client
      ensures CanRun(ticks) && RanSoFar(ticks, streams, rounds + 1, longer) && |longer| > 0 && longer[0] == trace[0]
      ensures go <==> GoesOn(ticks[rounds])
      ensures stdout.Reliable() && masterIn.Reliable() && !old(writeFailed) ==> !writeFailed
    {
      hide Valid, Transparent, TypedOnly, ReadsFair, WritesFair, Has, Taken, Left, KeepsOpen, Source.Full, Sink.Reliable;
      hide Adds, RoundInput, MasterStep, StdinStep, Frame, Round, Rounds, Framed, AllFramed, StepExact, RunExact;
      ValidIsTransparent();
      var tick := ticks[rounds];
      assert tick in ticks;
      ghost var b, stream := Now(), Stream(tick);
      ghost var asked;
      go, asked := PollOnce(tick);
      forall j | rounds < j < |ticks| && Distinct(ticks) ensures Stream(ticks[j]) == streams[j] {
        assert ticks[j] in ticks && (ticks[j].client != null ==> ticks[j].client != tick.client);
      }
      FramedBy(b, Now(), stream, Stream(tick));
      RunExactMore(ticks, streams, rounds, trace[0], b, Now(), FullReads(ticks), stream,
                   tick.client != null ==> tick.client.Full());
      RoundsMore(ticks, trace, Now());
      if Distinct(ticks) { FramedMore(trace, streams, Now()); }
      longer := trace + [Now()];
    }

    /** run, up to cleanup, over any sequence of rounds: it stops at the first that ends
        the loop, and both directions are transparent throughout. `trace` are the moments
        between rounds: for every schedule of reads each round adds what Round allows,
        stdin is never read again from the moment it is closed, and every message comes
        framed from its own round's connection. With full reads, what passed through is
        what the rounds' events call for, chunks and messages interleaved in order. */
    method Run(ticks: seq<Tick>) returns (rounds: nat, ghost trace: seq<Moment>)
      requires CanRun(ticks)
      modifies this, stdin, masterOut, stdout, masterIn, set t | t in ticks && t.client != null :: t.client
      ensures CanRun(ticks) && Transparent() && rounds <= |ticks|
      ensures (forall t | t in ticks ::
                 t.ready >= 0 && t.masterEvents / 8 % 2 == 0 && t.masterEvents / 16 % 2 == 0) ==> rounds == |ticks|
      ensures forall j | 0 <= j < |ticks|
                && (ticks[j].ready < 0 || ticks[j].masterEvents / 8 % 2 == 1 || ticks[j].masterEvents / 16 % 2 == 1)
                && (forall i | 0 <= i < j :: GoesOn(ticks[i])) :: rounds == j + 1
      ensures forall j | 0 <= j < rounds - 1 :: GoesOn(ticks[j])
      ensures stdout.Reliable() && masterIn.Reliable() && !old(writeFailed) ==> !writeFailed
      ensures |trace| == rounds + 1 && trace[0] == old(Now()) && trace[rounds] == Now()
      ensures Rounds(ticks, trace) && ClosedForGood(trace)
      ensures Distinct(ticks) ==> AllFramed(trace, old(Streams(ticks)))
      ensures RunExact(ticks[..rounds], old(Streams(ticks))[..rounds], old(Now()), Now(),
                       FullReads(ticks))
    {
      hide CanRun, RanSoFar, Now, Transparent, Rounds, AllFramed, ClosedForGood, RunExact, Distinct, FullReads;
      hide Sink.Reliable, Tick.EndsLoop, Agent.GoesOn, Has, Stream;
      rounds := 0;
      var go := true;
      ghost var streams := Streams(ticks);
      trace := [Now()];
      RunBegins(ticks, streams);
      while go && rounds < |ticks|
        invariant rounds <= |ticks| && CanRun(ticks)
        invariant RanSoFar(ticks, streams, rounds, trace) && |trace| > 0 && trace[0] == old(Now())
        invariant stdout.Reliable() && masterIn.Reliable() && !old(writeFailed) ==> !writeFailed
        invariant !go ==> rounds > 0 && !GoesOn(ticks[rounds - 1])
        invariant forall j | 0 <= j < (if go then rounds else rounds - 1) :: GoesOn(ticks[j])
        decreases |ticks| - rounds
      {
        assert ticks[rounds] in ticks;
        go, trace := NextRound(ticks, rounds, streams, trace);
        rounds := rounds + 1;
      }
      RunEnds(ticks, streams, rounds, trace);
      RunStops(ticks, rounds);
    }

    /** Where the loop stops: after the first round that does not let it go on. */
    static lemma RunStops(ticks: seq<Tick>, rounds: nat)
      requires rounds <= |ticks|
      requires rounds < |ticks| ==> rounds > 0 && !GoesOn(ticks[rounds - 1])
      requires forall j | 0 <= j < rounds - 1 :: GoesOn(ticks[j])
      ensures (forall t | t in ticks ::
                 t.ready >= 0 && t.masterEvents / 8 % 2 == 0 && t.masterEvents / 16 % 2 == 0) ==> rounds == |ticks|
      ensures forall j | 0 <= j < |ticks|
                && (ticks[j].ready < 0 || ticks[j].masterEvents / 8 % 2 == 1 || ticks[j].masterEvents / 16 % 2 == 1)
                && (forall i | 0 <= i < j :: GoesOn(ticks[i])) :: rounds == j + 1
    {
      if rounds < |ticks| { assert ticks[rounds - 1] in ticks; }
      forall j | 0 <= j < |ticks| && !GoesOn(ticks[j]) && (forall i | 0 <= i < j :: GoesOn(ticks[i]))
        ensures rounds == j + 1
      {
      }
    }

    lemma RunBegins(ticks: seq<Tick>, streams: seq<Bytes>)
      requires streams == Streams(ticks)
      ensures RanSoFar(ticks, streams, 0, [Now()])
    {
      NoRounds(ticks, streams, Now(), FullReads(ticks));
      hide Rounds, AllFramed, RunExact;
    }

    lemma RunEnds(ticks: seq<Tick>, streams: seq<Bytes>, rounds: nat, trace: seq<Moment>)
      requires CanRun(ticks) && |streams| == |ticks| && RanSoFar(ticks, streams, rounds, trace)
      ensures Transparent() && |trace| == rounds + 1 <= |ticks| + 1 && trace[rounds] == Now()
      ensures Rounds(ticks, trace) && ClosedForGood(trace)
      ensures Distinct(ticks) ==> AllFramed(trace, streams)
      ensures RunExact(ticks[..rounds], streams[..rounds], trace[0], Now(), FullReads(ticks))
    {
      ClosedStays(ticks, trace);
      hide Transparent, Rounds, AllFramed, RunExact, ClosedForGood;
    }

    lemma ValidIsTransparent()
      requires Valid()
      ensures Transparent() && Repr == {this, stdin, masterOut, stdout, masterIn}
    {
    }
  }

  /** A hang-up reported together with input is the end of it: one chunk of at most
      4096 bytes is passed on, and whatever else the terminal had sent never is. All of
      it gets through if and only if it fitted into that chunk. */
  lemma {:induction false} HangUpEndsInput(ticks: seq<Tick>, pending: Bytes)
    requires ticks != [] && ticks[0].ready >= 0 && pending != []
    requires Has(ticks[0].stdinEvents, POLLIN) && Has(ticks[0].stdinEvents, POLLHUP)
    ensures var (chunks, open, left) := StdinRun(ticks, true, pending);
            && chunks == [Chunk(pending)] && !open && pending == Chunk(pending) + left
            && (left == [] <==> |pending| <= BUFFER)
  {
    var n := |ticks| - 1;
    if n == 0 {
      assert StdinRun(ticks[..0], true, pending) == ([], true, pending);
    } else {
      HangUpEndsInput(ticks[..n], pending);
    }
  }

  /** The rounds in which the master was read. */
  function ReadingRounds(ticks: seq<Tick>): nat {
    if ticks == [] then 0
    else
      var n := |ticks| - 1;
      ReadingRounds(ticks[..n]) + (if ticks[n].ready >= 0 && Has(ticks[n].masterEvents, POLLIN) then 1 else 0)
  }

  /** What was read and what is left make up the stream, and how much is left. */
  lemma {:induction false} MasterRunDivides(ticks: seq<Tick>, pending: Bytes)
    ensures var (chunks, left) := MasterRun(ticks, pending);
            && pending == Forwarded(Identity, chunks) + left
            && |left| == (if |pending| <= BUFFER * ReadingRounds(ticks) then 0
                          else |pending| - BUFFER * ReadingRounds(ticks))
  {
    if ticks != [] {
      var n := |ticks| - 1;
      MasterRunDivides(ticks[..n], pending);
      var (chunks, left) := MasterRun(ticks[..n], pending);
      var (more, rest) := MasterStep(ticks[n], left);
      if more != [] {
        ChunkMoves(pending, chunks, left, more[0], rest);
        assert chunks + more == chunks + [more[0]];
      } else {
        assert chunks + more == chunks;
      }
    }
  }

  lemma LastStep(tick: Tick, unread: Bytes)
    requires tick.ready >= 0
    ensures var (more, lost) := MasterStep(tick, unread);
            if Has(tick.masterEvents, POLLIN) then
              && more == (if unread == [] then [] else [Chunk(unread)])
              && unread == Chunk(unread) + lost && (lost == [] <==> |unread| <= BUFFER)
            else more == [] && lost == unread
  {
    hide Has;
  }

  /** The master's hang-up is the end of the shell's output. If input is reported with
      it, one chunk of at most 4096 bytes is still shown, and what remained gets through
      if and only if it fitted into that chunk; if none is, nothing more is shown. The
      loop ends there, so over a whole run all output is shown if and only if it is no
      longer than 4096 bytes for each round in which the master was read. */
  lemma HangUpEndsOutput(ticks: seq<Tick>, pending: Bytes)
    requires ticks != [] && ticks[|ticks| - 1].ready >= 0 && Has(ticks[|ticks| - 1].masterEvents, POLLHUP)
    ensures var last := ticks[|ticks| - 1];
            var (before, unread) := MasterRun(ticks[..|ticks| - 1], pending);
            var (chunks, lost) := MasterRun(ticks, pending);
            && last.EndsLoop()
            && (Has(last.masterEvents, POLLIN) ==>
                  && chunks == before + (if unread == [] then [] else [Chunk(unread)])
                  && unread == Chunk(unread) + lost && (lost == [] <==> |unread| <= BUFFER))
            && (!Has(last.masterEvents, POLLIN) ==> chunks == before && lost == unread)
            && pending == Forwarded(Identity, chunks) + lost
            && (lost == [] <==> |pending| <= BUFFER * ReadingRounds(ticks))
  {
    hide Has, Forwarded, ReadingRounds, MasterStep, Taken, Left, Chunk;
    MasterRunDivides(ticks, pending);
    var n := |ticks| - 1;
    LastStep(ticks[n], MasterRun(ticks[..n], pending).1);
    assert MasterRun(ticks[..n], pending).0 + [] == MasterRun(ticks[..n], pending).0;
  }

  /** Without clients nothing but terminal input reaches on_input. */
  lemma {:induction false} NoClientNoMessage(ticks: seq<Tick>, trace: seq<Moment>)
    requires Rounds(ticks, trace) && forall t | t in ticks :: t.client == null
    ensures var c := trace[|trace| - 1];
            && trace[0].inputs <= c.inputs
            && forall k | |trace[0].inputs| <= k < |c.inputs| :: c.inputs[k].Typed?
  {
    if |trace| > 1 {
      var n := |trace| - 1;
      assert Round(ticks[n - 1], trace[n - 1], trace[n]);
      NoClientNoMessage(ticks, trace[..n]);
      assert ticks[n - 1] in ticks;
      var b, c := trace[n - 1], trace[n];
      var added := c.inputs[|b.inputs|..];
      var typed, message :| AddsParts(ticks[n - 1], b.stdinOpen, added, typed, message);
      AllTyped(typed);
      forall k | |trace[0].inputs| <= k < |c.inputs| ensures c.inputs[k].Typed? {
        if k < |b.inputs| { assert c.inputs[k] == b.inputs[k]; } else { assert c.inputs[k] == added[k - |b.inputs|]; }
      }
    }
  }

  lemma {:induction false} ForwardedIdentity(f: Bytes -> Bytes, chunks: seq<Bytes>)
    requires forall b :: f(b) == b
    ensures Forwarded(f, chunks) == Forwarded(Identity, chunks)
  {
    if chunks != [] {
      ForwardedIdentity(f, chunks[..|chunks| - 1]);
    }
  }

  /** With the identity observer and successful writes, what the terminal shows is
      exactly what was read from the master: the master's stream up to what is unread. */
  lemma NullObserverTransparent(agent: Agent)
    requires agent.Valid() && !agent.writeFailed
    requires forall b :: agent.onOutput(b) == b
    ensures agent.masterStream == agent.stdout.delivered + agent.masterOut.pending
  {
    ForwardedIdentity(agent.onOutput, agent.outputs);
  }
}
