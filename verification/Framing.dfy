/** Length-prefixed socket messages: four little-endian length bytes, then the payload.
    Masks and shifts of the 32-bit Int are written arithmetically. */
module Framing {
  import opened Basics
  import opened Io

  const TWO_31 := 0x8000_0000
  const TWO_32 := 0x1_0000_0000

  /** The low 32 bits of an Int, least significant byte first. */
  function LittleEndian(v: int): (h: Bytes)
    ensures |h| == 4
  {
    [(v % 256) as Byte, (v / 256 % 256) as Byte, (v / 65536 % 256) as Byte, (v / 16777216 % 256) as Byte]
  }

  /** The signed 32-bit Int four bytes stand for. */
  function SignedInt(h: Bytes): int
    requires |h| == 4
  {
    var u := h[0] as int + 256 * h[1] as int + 65536 * h[2] as int + 16777216 * h[3] as int;
    if u >= TWO_31 then u - TWO_32 else u
  }

  function Frame(data: Bytes): Bytes { LittleEndian(|data|) + data }

  /** Peeling one byte off a number. */
  lemma DivDiv(u: int)
    ensures u / 65536 == u / 256 / 256 && u / 16777216 == u / 256 / 256 / 256
  {
  }

  lemma BytesOfWord(u: nat)
    requires u < TWO_32
    ensures u == u % 256 + 256 * (u / 256 % 256) + 65536 * (u / 65536 % 256) + 16777216 * (u / 16777216 % 256)
  {
    DivDiv(u);
    var x, y := u / 256, u / 65536;
    assert u == u % 256 + 256 * x && x == x % 256 + 256 * y && y == y % 256 + 256 * (u / 16777216);
  }

  lemma SameLowByte(v: int, k: int)
    ensures (v + 256 * k) % 256 == v % 256
  {
  }

  /** Adding 2^32 changes none of the low four bytes. */
  lemma LowBytes(v: int)
    ensures LittleEndian(v + TWO_32) == LittleEndian(v)
  {
    SameLowByte(v, 16777216);
    SameLowByte(v / 256, 65536);
    SameLowByte(v / 65536, 256);
    SameLowByte(v / 16777216, 1);
    assert (v + TWO_32) / 256 == v / 256 + 256 * 65536;
    assert (v + TWO_32) / 65536 == v / 65536 + 256 * 256;
    assert (v + TWO_32) / 16777216 == v / 16777216 + 256 * 1;
  }

  lemma WordRoundTrip(u: nat)
    requires u < TWO_32
    ensures SignedInt(LittleEndian(u)) == if u >= TWO_31 then u - TWO_32 else u
  {
    BytesOfWord(u);
  }

  /** Encoding and decoding are inverse on every 32-bit Int, negative ones included. */
  lemma SignedRoundTrip(v: int)
    requires -TWO_31 <= v < TWO_31
    ensures SignedInt(LittleEndian(v)) == v
  {
    LowBytes(v);
    WordRoundTrip(if v < 0 then v + TWO_32 else v);
  }

  lemma LengthBytes(h: Bytes)
    requires |h| == 4 && SignedInt(h) >= 0
    ensures LittleEndian(SignedInt(h)) == h
  {
    var a, b, c, d := h[0] as int, h[1] as int, h[2] as int, h[3] as int;
    var u := a + 256 * b + 65536 * c + 16777216 * d;
    assert u % 256 == a;
    assert u / 256 == b + 256 * c + 65536 * d;
    assert u / 256 % 256 == b;
    assert u / 65536 == c + 256 * d;
    assert u / 65536 % 256 == c;
    assert u / 16777216 == d;
  }

  /** What reading one message from a stream with full reads yields and leaves. */
  function ReadFrame(stream: Bytes, maxLen: int): (Option<Bytes>, Bytes) {
    if |stream| < 4 then (None, [])
    else
      var len := SignedInt(stream[..4]);
      var body := stream[4..];
      if len <= 0 || len > maxLen then (None, body)
      else if |body| < len then (None, [])
      else (Some(body[..len]), body[len..])
  }

  /** A message comes back exactly when its frame is what the stream begins with, its
      length is at least 1 and at most the limit, and the rest is left untouched. */
  lemma ReadFrameIff(stream: Bytes, maxLen: int, m: Bytes, rest: Bytes)
    requires maxLen < TWO_31
    ensures ReadFrame(stream, maxLen) == (Some(m), rest) <==> stream == Frame(m) + rest && 1 <= |m| <= maxLen
  {
    if stream == Frame(m) + rest && 1 <= |m| <= maxLen {
      SignedRoundTrip(|m|);
      assert stream[..4] == LittleEndian(|m|);
      assert stream[4..] == m + rest;
    }
    if ReadFrame(stream, maxLen) == (Some(m), rest) {
      LengthBytes(stream[..4]);
      assert stream == stream[..4] + stream[4..];
      assert stream[4..] == m + rest;
    }
  }

  /** Zero, oversized and sign-bit-set lengths are refused. */
  lemma BadLengthRefused(h: Bytes, rest: Bytes, maxLen: nat)
    requires |h| == 4
    requires h == [0, 0, 0, 0] || h[3] >= 128 || SignedInt(h) > maxLen
    ensures ReadFrame(h + rest, maxLen) == (None, rest)
  {
    assert (h + rest)[..4] == h && (h + rest)[4..] == rest;
  }

  function Frames(ms: seq<Bytes>): Bytes {
    if ms == [] then [] else Frame(ms[0]) + Frames(ms[1..])
  }

  function ReadFrames(stream: Bytes, maxLen: int, n: nat): (seq<Option<Bytes>>, Bytes)
    decreases n
  {
    if n == 0 then ([], stream)
    else
      var (m, rest) := ReadFrame(stream, maxLen);
      var (ms, left) := ReadFrames(rest, maxLen, n - 1);
      ([m] + ms, left)
  }

  function AllRead(ms: seq<Bytes>): seq<Option<Bytes>> {
    if ms == [] then [] else [Some(ms[0])] + AllRead(ms[1..])
  }

  /** Any number of messages written one after another is read back in order. */
  lemma {:induction false} FramesRoundTrip(ms: seq<Bytes>, rest: Bytes, maxLen: int)
    requires maxLen < TWO_31
    requires forall i | 0 <= i < |ms| :: 1 <= |ms[i]| <= maxLen
    ensures ReadFrames(Frames(ms) + rest, maxLen, |ms|) == (AllRead(ms), rest)
  {
    hide Frame, ReadFrame;
    if ms == [] {
      assert [] + rest == rest;
    } else {
      assert Frames(ms) + rest == Frame(ms[0]) + (Frames(ms[1..]) + rest);
      ReadFrameIff(Frames(ms) + rest, maxLen, ms[0], Frames(ms[1..]) + rest);
      FramesRoundTrip(ms[1..], rest, maxLen);
    }
  }

  // ----- poll buffers

  const POLLIN := 0x0001
  const POLLERR := 0x0008
  const POLLHUP := 0x0010

  /** Whether the bit of a one-bit mask is set. */
  predicate Has(revents: int, mask: int)
    requires mask > 0
  {
    revents / mask % 2 == 1
  }

  /** One packed pollfd: the descriptor, the events asked for, and no result yet. */
  function PackEntry(fd: int, events: int): Bytes {
    LittleEndian(fd) + [(events % 256) as Byte, (events / 256 % 256) as Byte, 0, 0]
  }

  function Packed(entries: seq<(int, int)>): (buf: Bytes)
    ensures |buf| == 8 * |entries|
  {
    if entries == [] then []
    else
      var n := |entries| - 1;
      Packed(entries[..n]) + PackEntry(entries[n].0, entries[n].1)
  }

  /** Eight bytes after the packed entries are one more packed entry. */
  lemma OneMoreEntry(entries: seq<(int, int)>, i: nat, buf: Bytes)
    requires i < |entries| && 8 * i + 8 <= |buf| && buf[..8 * i] == Packed(entries[..i])
    requires forall j | 0 <= j < 8 :: buf[8 * i + j] == PackEntry(entries[i].0, entries[i].1)[j]
    ensures buf[..8 * (i + 1)] == Packed(entries[..i + 1])
  {
    assert entries[..i + 1][..i] == entries[..i];
    assert buf[..8 * (i + 1)] == buf[..8 * i] + buf[8 * i..8 * i + 8];
    assert buf[8 * i..8 * i + 8] == PackEntry(entries[i].0, entries[i].1);
  }

  /** One turn of its loop. */
  method PackOne(buf: array<Byte>, i: nat, fd: int, events: int)
    requires 8 * i + 8 <= buf.Length
    modifies buf
    ensures buf[..8 * i] == old(buf[..8 * i])
    ensures forall j | 0 <= j < 8 :: buf[8 * i + j] == PackEntry(fd, events)[j]
  {
    buf[i * 8 + 0] := (fd % 256) as Byte;
    buf[i * 8 + 1] := (fd / 256 % 256) as Byte;
    buf[i * 8 + 2] := (fd / 65536 % 256) as Byte;
    buf[i * 8 + 3] := (fd / 16777216 % 256) as Byte;
    buf[i * 8 + 4] := (events % 256) as Byte;
    buf[i * 8 + 5] := (events / 256 % 256) as Byte;
    buf[i * 8 + 6] := 0;
    buf[i * 8 + 7] := 0;
  }

  /** pollfd_pack fills its buffer entry by entry. */
  method PollfdPack(entries: seq<(int, int)>) returns (packed: Bytes)
    ensures packed == Packed(entries)
  {
    var n := |entries|;
    var buf := new Byte[n * 8](_ => 0);
    for i := 0 to n
      invariant buf[..8 * i] == Packed(entries[..i])
    {
      var (fd, events) := entries[i];
      PackOne(buf, i, fd, events);
      assert buf[..][..8 * i] == buf[..8 * i];
      OneMoreEntry(entries, i, buf[..]);
      assert buf[..][..8 * (i + 1)] == buf[..8 * (i + 1)];
    }
    assert entries[..n] == entries && buf[..8 * n] == buf[..];
    packed := buf[..];
  }

  function PollfdRevents(buf: Bytes, index: nat): int
    requires 8 * index + 8 <= |buf|
  {
    buf[index * 8 + 6] as int + 256 * buf[index * 8 + 7] as int
  }

  /** poll(2) storing a result in every entry and nothing else. */
  function Polled(buf: Bytes, revents: seq<nat>): Bytes
    requires |buf| == 8 * |revents|
  {
    seq(|buf|, j requires 0 <= j < |buf| =>
      if j % 8 == 6 then (revents[j / 8] % 256) as Byte
      else if j % 8 == 7 then (revents[j / 8] / 256 % 256) as Byte
      else buf[j])
  }

  lemma {:induction false} PackedAt(entries: seq<(int, int)>, i: nat, j: nat)
    requires i < |entries| && j < 8
    ensures Packed(entries)[8 * i + j] == PackEntry(entries[i].0, entries[i].1)[j]
  {
    var n := |entries| - 1;
    if i < n {
      PackedAt(entries[..n], i, j);
    }
  }

  lemma PackedDescriptor(entries: seq<(int, int)>, i: nat)
    requires i < |entries|
    ensures Packed(entries)[8 * i..8 * i + 4] == LittleEndian(entries[i].0)
  {
    var bytes := Packed(entries)[8 * i..8 * i + 4];
    forall j | 0 <= j < 4 ensures bytes[j] == LittleEndian(entries[i].0)[j] {
      PackedAt(entries, i, j);
      assert bytes[j] == Packed(entries)[8 * i + j];
    }
  }

  /** The packed buffer is what the kernel's struct array reads: entry i has the i-th
      descriptor and events, whatever the neighbours hold. */
  lemma PackedFields(entries: seq<(int, int)>, i: nat)
    requires i < |entries| && -TWO_31 <= entries[i].0 < TWO_31 && 0 <= entries[i].1 < 0x8000
    ensures SignedInt(Packed(entries)[8 * i..8 * i + 4]) == entries[i].0
    ensures Packed(entries)[8 * i + 4] as int + 256 * Packed(entries)[8 * i + 5] as int == entries[i].1
    ensures PollfdRevents(Packed(entries), i) == 0
  {
    hide LittleEndian, SignedInt, Packed;
    PackedDescriptor(entries, i);
    SignedRoundTrip(entries[i].0);
    PackedAt(entries, i, 4);
    PackedAt(entries, i, 5);
    PackedAt(entries, i, 6);
    PackedAt(entries, i, 7);
  }

  /** pollfd_revents gives back what poll stored for that entry. */
  lemma ReventsRoundTrip(buf: Bytes, revents: seq<nat>, i: nat)
    requires |buf| == 8 * |revents| && i < |revents| && revents[i] < 0x1_0000
    ensures PollfdRevents(Polled(buf, revents), i) == revents[i]
  {
    assert (8 * i + 6) / 8 == i && (8 * i + 7) / 8 == i;
  }

  /** The descriptor and the events that entry `i` of a packed buffer asks for. */
  function Asked(packed: Bytes, i: nat): (int, int)
    requires 8 * i + 8 <= |packed|
  {
    (SignedInt(packed[8 * i..8 * i + 4]), packed[8 * i + 4] as int + 256 * packed[8 * i + 5] as int)
  }

  /** What poll answers for one entry, `happening` being what goes on at each descriptor:
      nothing for a negative one, input only if asked for, a hang-up or an error always. */
  function Reported(asked: (int, int), happening: int -> nat): nat {
    if asked.0 < 0 then 0
    else if Has(asked.1, POLLIN) then happening(asked.0)
    else happening(asked.0) - happening(asked.0) % 2
  }

  /** poll(2), which knows of its callers' intentions only the packed bytes. */
  method Poll(packed: Bytes, n: nat, happening: int -> nat) returns (fds: Bytes)
    requires |packed| == 8 * n && forall fd :: happening(fd) < 0x1_0000
    ensures |fds| == |packed|
    ensures forall i | 0 <= i < n :: PollfdRevents(fds, i) == Reported(Asked(packed, i), happening)
  {
    var revents := seq(n, i requires 0 <= i < n => Reported(Asked(packed, i), happening));
    fds := Polled(packed, revents);
    forall i | 0 <= i < n ensures PollfdRevents(fds, i) == Reported(Asked(packed, i), happening) {
      ReventsRoundTrip(packed, revents, i);
    }
  }

  /** What a packed buffer asks for is what was packed. */
  lemma AskedIsPacked(entries: seq<(int, int)>, i: nat)
    requires i < |entries| && -TWO_31 <= entries[i].0 < TWO_31 && 0 <= entries[i].1 < 0x8000
    ensures Asked(Packed(entries), i) == entries[i]
  {
    PackedFields(entries, i);
  }

  // ----- the bytes of a length

  /** Each header byte by its own weight, the low byte first. */
  lemma HeaderBytes(v: nat, k: nat)
    requires v < 0x8000_0000 && k < 4
    ensures LittleEndian(v)[k] as int ==
            v / (if k == 0 then 1 else if k == 1 then 256 else if k == 2 then 65536 else 16777216) % 256
  {
  }

  /** Literally: the headers of lengths 258 and 67305985, and a whole frame. */
  lemma HeaderExamples()
    ensures LittleEndian(258) == [2, 1, 0, 0] && SignedInt([2, 1, 0, 0]) == 258
    ensures LittleEndian(67305985) == [1, 2, 3, 4] && SignedInt([1, 2, 3, 4]) == 67305985
    ensures Frame([7, 8]) == [2, 0, 0, 0, 7, 8]
  {
  }

  /** And the length of a header by its bytes, -1 for all ones. */
  lemma HeaderLength(a: Byte, b: Byte, c: Byte, d: Byte)
    ensures d < 128 ==> SignedInt([a, b, c, d]) == a as int + 256 * b as int + 65536 * c as int + 16777216 * d as int
    ensures d >= 128 ==>
              SignedInt([a, b, c, d]) == a as int + 256 * b as int + 65536 * c as int + 16777216 * d as int - 4294967296
    ensures SignedInt([255, 255, 255, 255]) == -1
  {
  }

  // ----- reading and writing a message

  /** write_socket_message: true exactly when the whole frame went out; otherwise a
      strict prefix of it did. */
  method WriteSocketMessage(sink: Sink, data: Bytes) returns (ok: bool)
    requires WritesFair(sink.schedule) && |data| < TWO_31
    modifies sink
    ensures old(sink.delivered) <= sink.delivered <= old(sink.delivered) + Frame(data)
    ensures ok <==> sink.delivered == old(sink.delivered) + Frame(data)
    ensures sink.Reliable() ==> ok
  {
    var header := LittleEndian(|data|);
    ghost var before := sink.delivered;
    var n1 := IoWrite(sink, header);
    assert before + Frame(data) == before + header + data;
    if n1 < 0 {
      return false;
    }
    var n2 := IoWrite(sink, data);
    ok := n2 >= 0;
  }

  /** What poll reports about a client: a count, and the events when positive. */
  datatype PollResult = PollResult(ready: int, revents: nat)

  /** Input is there, and neither a hang-up (16) nor an error (8). */
  predicate Readable(p: PollResult)
    ensures Readable(p) <==>
            p.ready > 0 && p.revents % 2 == 1 && p.revents / 8 % 2 == 0 && p.revents / 16 % 2 == 0
  {
    p.ready > 0 && Has(p.revents, POLLIN) && !Has(p.revents, POLLHUP) && !Has(p.revents, POLLERR)
  }

  /** read_socket_message: a message is returned only if exactly its frame was consumed;
      with full reads it is what the stream holds, and a client that has hung up is
      not read at all, even when its message is there. */
  method ReadSocketMessage(source: Source, clientFd: int, polled: PollResult, maxLen: nat) returns (r: Option<Bytes>)
    requires ReadsFair(source.schedule) && polled.revents < 0x1_0000
    requires 0 <= clientFd < TWO_31 && maxLen < TWO_31
    modifies source
    ensures r.Some? ==> 1 <= |r.value| <= maxLen && old(source.pending) == Frame(r.value) + source.pending
    ensures r.Some? ==> Readable(polled)
    ensures !Readable(polled) ==> source.pending == old(source.pending)
    ensures Readable(polled) && source.Full() ==> (r, source.pending) == ReadFrame(old(source.pending), maxLen)
  {
    ghost var stream := source.pending;
    var fds := PollfdPack([(clientFd, POLLIN)]);
    AskedIsPacked([(clientFd, POLLIN)], 0);
    fds := Poll(fds, 1, fd => if fd == clientFd then polled.revents else 0);
    if polled.ready <= 0 {
      return None;
    }
    var revents := PollfdRevents(fds, 0);
    if Has(revents, POLLHUP) || Has(revents, POLLERR) {
      return None;
    }
    if !Has(revents, POLLIN) {
      return None;
    }
    var n, header := IoRead(source, 4);
    if n != 4 {
      return None;
    }
    assert stream[..4] == header && stream[4..] == source.pending;
    var len := SignedInt(header);
    if len <= 0 || len > maxLen {
      return None;
    }
    var n2, payload := IoRead(source, len);
    if n2 != len {
      return None;
    }
    LengthBytes(header);
    assert stream == (header + payload) + source.pending;
    r := Some(payload);
  }
}
