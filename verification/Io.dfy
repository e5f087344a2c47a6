/** System calls on byte streams, and the loops that retry them. A descriptor's future
    behaviour is a schedule of outcomes, one per call. */
module Io {
  import opened Basics

  newtype Byte = b: int | 0 <= b < 256

  type Bytes = seq<Byte>

  /** What one write call does: accept some bytes, be interrupted (EINTR), or fail with
      any other error. */
  datatype WriteOutcome = Accepts(n: nat) | WriteInterrupted | WriteFails

  /** What one read call does; a read can return fewer bytes than are available. */
  datatype ReadOutcome = Gives(n: nat) | ReadInterrupted | ReadFails

  ghost predicate WriteFrom(schedule: nat -> WriteOutcome, t: nat) {
    exists u: nat :: t <= u && schedule(u) != WriteInterrupted
  }

  ghost predicate ReadFrom(schedule: nat -> ReadOutcome, t: nat) {
    exists u: nat :: t <= u && schedule(u) != ReadInterrupted
  }

  /** No call is interrupted forever. */
  ghost predicate WritesFair(schedule: nat -> WriteOutcome) {
    forall t: nat :: WriteFrom(schedule, t)
  }

  ghost predicate ReadsFair(schedule: nat -> ReadOutcome) {
    forall t: nat :: ReadFrom(schedule, t)
  }

  /** The writing side of a descriptor. */
  class Sink {
    const schedule: nat -> WriteOutcome
    var calls: nat
    var delivered: Bytes

    constructor (schedule: nat -> WriteOutcome)
      ensures this.schedule == schedule && calls == 0 && delivered == []
    {
      this.schedule, calls, delivered := schedule, 0, [];
    }

    /** Writes go through, if only in parts and after interruptions. */
    ghost predicate Reliable() {
      forall t: nat :: schedule(t) == WriteInterrupted || (schedule(t).Accepts? && schedule(t).n > 0)
    }

    /** write(2): the count accepted, or -1 with errno EINTR or another. */
    method SysWrite(buf: Bytes) returns (n: int, interrupted: bool)
      modifies this
      ensures calls == old(calls) + 1
      ensures interrupted <==> schedule(old(calls)) == WriteInterrupted
      ensures -1 <= n <= |buf| && (interrupted ==> n == -1)
      ensures delivered == old(delivered) + buf[..if n < 0 then 0 else n]
      ensures n >= 0 <==> schedule(old(calls)).Accepts?
      ensures n >= 0 ==> n == Min(schedule(old(calls)).n, |buf|)
    {
      var outcome := schedule(calls);
      calls := calls + 1;
      match outcome
      case Accepts(k) =>
        n, interrupted := Min(k, |buf|), false;
        delivered := delivered + buf[..n];
      case WriteInterrupted => n, interrupted := -1, true;
      case WriteFails => n, interrupted := -1, false;
    }
  }

  /** The reading side of a descriptor: the bytes not yet read. */
  class Source {
    const schedule: nat -> ReadOutcome
    var calls: nat
    var pending: Bytes

    constructor (schedule: nat -> ReadOutcome, pending: Bytes)
      ensures this.schedule == schedule && calls == 0 && this.pending == pending
    {
      this.schedule, calls, this.pending := schedule, 0, pending;
    }

    /** read(2) of at most `max` bytes. */
    method SysRead(max: nat) returns (n: int, buf: Bytes, interrupted: bool)
      modifies this
      ensures calls == old(calls) + 1
      ensures interrupted <==> schedule(old(calls)) == ReadInterrupted
      ensures n < 0 ==> n == -1 && buf == [] && pending == old(pending)
      ensures n >= 0 ==> n == |buf| && n <= max && old(pending) == buf + pending
      ensures interrupted ==> n == -1
      ensures n >= 0 <==> schedule(old(calls)).Gives?
      ensures n >= 0 ==> n == Min(schedule(old(calls)).n, Min(max, |old(pending)|))
    {
      var outcome := schedule(calls);
      calls := calls + 1;
      match outcome
      case Gives(k) =>
        n, interrupted := Min(k, Min(max, |pending|)), false;
        buf, pending := pending[..n], pending[n..];
      case ReadInterrupted => n, buf, interrupted := -1, [], true;
      case ReadFails => n, buf, interrupted := -1, [], false;
    }

    /** Reads hand over everything they can. */
    ghost predicate Full() {
      forall t: nat :: schedule(t) == ReadInterrupted || (schedule(t).Gives? && schedule(t).n >= 0x8000_0000)
    }
  }

  /** A call from the `t`-th on that is not interrupted. */
  lemma Answered(schedule: nat -> WriteOutcome, t: nat) returns (u: nat)
    requires WritesFair(schedule)
    ensures t <= u && schedule(u) != WriteInterrupted
  {
    assert WriteFrom(schedule, t);
    u :| t <= u && schedule(u) != WriteInterrupted;
  }

  /** shimux_io_write. Whatever the schedule of partial writes, interruptions and
      errors, what is delivered is an in-order, unduplicated prefix of the buffer: all
      of it if and only if the length is returned, a strict prefix if and only if -1. */
  method IoWrite(sink: Sink, data: Bytes) returns (ret: int)
    requires WritesFair(sink.schedule)
    modifies sink
    ensures old(sink.delivered) <= sink.delivered <= old(sink.delivered) + data
    ensures ret == |data| <==> sink.delivered == old(sink.delivered) + data
    ensures ret == -1 <==> sink.delivered != old(sink.delivered) + data
    ensures sink.Reliable() ==> ret == |data|
  {
    hide WritesFair;
    var len := |data|;
    if len == 0 {
      return 0;
    }
    var written := 0;
    ghost var u := Answered(sink.schedule, sink.calls);
    while written < len
      invariant 0 <= written <= len
      invariant sink.delivered == old(sink.delivered) + data[..written]
      invariant sink.calls <= u && sink.schedule(u) != WriteInterrupted
      decreases len - written, u - sink.calls
    {
      var n, interrupted := sink.SysWrite(data[written..]);
      if n < 0 {
        if interrupted {
          continue;
        }
        return -1;
      }
      if n == 0 {
        return -1;
      }
      assert data[..written] + data[written..][..n] == data[..written + n];
      written := written + n;
      u := Answered(sink.schedule, sink.calls);
    }
    ret := len;
  }

  /** shimux_io_read: one read, retried while interrupted. */
  method IoRead(source: Source, max: int) returns (n: int, buf: Bytes)
    requires ReadsFair(source.schedule)
    modifies source
    ensures n < 0 ==> n == -1 && buf == [] && source.pending == old(source.pending)
    ensures n >= 0 ==> n == |buf| && n <= max && old(source.pending) == buf + source.pending
    ensures max <= 0 ==> n == -1
    ensures source.Full() && 0 < max <= 0x8000_0000 ==> n == Min(max, |old(source.pending)|)
  {
    if max <= 0 {
      return -1, [];
    }
    assert ReadFrom(source.schedule, source.calls);
    ghost var u: nat :| source.calls <= u && source.schedule(u) != ReadInterrupted;
    while true
      invariant source.pending == old(source.pending)
      invariant source.calls <= u && source.schedule(u) != ReadInterrupted
      decreases u - source.calls
    {
      var interrupted;
      n, buf, interrupted := source.SysRead(max);
      if n < 0 {
        if interrupted {
          continue;
        }
        return -1, [];
      }
      return;
    }
  }
}
