/** The retrying send-keys client and the server side of one connection. The
    network is an oracle: per attempt it decides how far the exchange gets. */
module Client {
  import opened Basics

  const MAX_REQUEST_SIZE := 0x10_0000
  const RETRY_INIT_INTERVAL := 10
  const RETRY_MAX_INTERVAL := 200
  const RETRY_MAX_ATTEMPTS := 10

  /** The JSON codec of a request. */
  datatype Codec = Codec(encode: string -> string, decode: string -> Option<string>)

  /** What is assumed of the codec for a given text: decoding inverts encoding, and a
      cut-off request object is not a complete one. */
  ghost predicate Faithful(codec: Codec, data: string) {
    && codec.decode(codec.encode(data)) == Some(data)
    && forall n :: 0 <= n < |codec.encode(data)| ==> codec.decode(codec.encode(data)[..n]) == None
  }

  /** One invocation of the server's callback and how it ended. */
  datatype Call = Call(data: string, ok: bool)

  datatype Reply = NoReply | Refused | Accepted

  /** What the surroundings do to one attempt. */
  datatype Attempt = Attempt(
    connects: bool,      // DialContext succeeds
    delivered: nat,      // bytes of the request that reach the server in time
    writeOk: bool,       // the client's Write reports success
    served: bool,        // the server accepts and handles the connection
    callbackOk: bool,    // what the callback would return
    replyArrives: bool   // the reply reaches the client before its deadline
  )

  function Pow2(k: nat): nat { if k == 0 then 1 else 2 * Pow2(k - 1) }

  /** handleConn on the bytes received: the decoder sees at most one byte more than
      the size limit; the callback runs only on a request that decodes. */
  function HandleConn(codec: Codec, received: string, callbackOk: bool): (seq<Call>, Reply) {
    var visible := received[..Min(|received|, MAX_REQUEST_SIZE + 1)];
    match codec.decode(visible)
    case None => ([], Refused)
    case Some(data) => ([Call(data, callbackOk)], if callbackOk then Accepted else Refused)
  }

  /** SendKeysWithTimeout against the oracle: the callbacks it causes, and whether it
      returns nil. */
  function TryOnce(codec: Codec, data: string, a: Attempt): (seq<Call>, bool) {
    if !a.connects then ([], false)
    else
      var request := codec.encode(data);
      var received := request[..Min(a.delivered, |request|)];
      var (calls, reply) := if a.served then HandleConn(codec, received, a.callbackOk) else ([], NoReply);
      (calls, a.writeOk && a.replyArrives && reply == Accepted)
  }

  /** The whole request arrives within the limit the decoder enforces. */
  predicate Reaches(codec: Codec, data: string, a: Attempt) {
    && a.connects && a.served
    && a.delivered >= |codec.encode(data)|
    && |codec.encode(data)| <= MAX_REQUEST_SIZE + 1
  }

  /** One attempt: the callback runs exactly when the whole request gets through,
      once, on the given data; nil means it ran, succeeded and was acknowledged. */
  lemma TryOnceOutcome(codec: Codec, data: string, a: Attempt)
    requires Faithful(codec, data)
    ensures TryOnce(codec, data, a).0 == if Reaches(codec, data, a) then [Call(data, a.callbackOk)] else []
    ensures TryOnce(codec, data, a).1 <==>
            Reaches(codec, data, a) && a.callbackOk && a.writeOk && a.replyArrives
    ensures Reaches(codec, data, a) <==>
            a.connects && a.served && a.delivered >= |codec.encode(data)| && |codec.encode(data)| <= 1048577
  {
    var request := codec.encode(data);
    var received := request[..Min(a.delivered, |request|)];
    var visible := received[..Min(|received|, MAX_REQUEST_SIZE + 1)];
    assert visible == request[..|visible|];
    if |visible| == |request| {
      assert visible == request;
    }
  }

  /** Callbacks caused by the first `n` attempts of an all-failing series. */
  function CallsOf(codec: Codec, data: string, attempts: seq<Attempt>): seq<Call> {
    if attempts == [] then []
    else CallsOf(codec, data, attempts[..|attempts| - 1]) + TryOnce(codec, data, attempts[|attempts| - 1]).0
  }

  /** The k-th back-off: doubled each time, capped. */
  function Backoff(init: nat, cap: nat, k: nat): nat { Min(init * Pow2(k), cap) }

  lemma BackoffStep(init: nat, cap: nat, k: nat)
    requires init <= cap
    ensures Backoff(init, cap, k + 1) == Min(2 * Backoff(init, cap, k), cap)
  {
    assert init * Pow2(k + 1) == 2 * (init * Pow2(k));
  }

  /** The constants' schedule: 10, 20, 40, 80, 160 ms, then 200 ms from the sixth on. */
  lemma {:induction false} DefaultBackoff(k: nat)
    ensures k < 5 ==> Backoff(RETRY_INIT_INTERVAL, RETRY_MAX_INTERVAL, k) == [10, 20, 40, 80, 160][k]
    ensures k >= 5 ==> Backoff(RETRY_INIT_INTERVAL, RETRY_MAX_INTERVAL, k) == 200
  {
    if k > 0 {
      DefaultBackoff(k - 1);
      BackoffStep(RETRY_INIT_INTERVAL, RETRY_MAX_INTERVAL, k - 1);
    }
  }

  /** SendKeys, for any attempt limit and back-off constants; `surroundings` holds
      what would happen to each attempt, one entry per attempt allowed. */
  method SendKeys(codec: Codec, data: string, surroundings: seq<Attempt>, init: nat, cap: nat)
    returns (ok: bool, tries: nat, calls: seq<Call>, sleeps: seq<nat>)
    requires Faithful(codec, data)
    requires init <= cap
    ensures tries <= |surroundings|
    ensures ok ==> tries > 0 && TryOnce(codec, data, surroundings[tries - 1]).1
    ensures !ok ==> tries == |surroundings|
    ensures forall j | 0 <= j < (if ok then tries - 1 else tries) :: !TryOnce(codec, data, surroundings[j]).1
    ensures ok ==> Call(data, true) in calls
    ensures |calls| <= tries && forall c | c in calls :: c.data == data
    ensures calls == CallsOf(codec, data, surroundings[..tries])
    ensures |sleeps| == if ok then tries - 1 else tries
    ensures forall k | 0 <= k < |sleeps| :: sleeps[k] == Min(init * Pow2(k), cap)
  {
    hide Faithful, TryOnce, Reaches;
    calls, sleeps, tries := [], [], 0;
    var interval := init;
    assert init * Pow2(0) == init;
    for i := 0 to |surroundings|
      invariant tries == i
      invariant interval == Backoff(init, cap, i)
      invariant |calls| <= i && forall c | c in calls :: c.data == data
      invariant calls == CallsOf(codec, data, surroundings[..i])
      invariant |sleeps| == i
      invariant forall k | 0 <= k < i :: sleeps[k] == Backoff(init, cap, k)
      invariant forall j | 0 <= j < i :: !TryOnce(codec, data, surroundings[j]).1
    {
      var (caused, accepted) := TryOnce(codec, data, surroundings[i]);
      TryOnceOutcome(codec, data, surroundings[i]);
      assert surroundings[..i + 1][..i] == surroundings[..i];
      calls := calls + caused;
      tries := i + 1;
      if accepted {
        return true, tries, calls, sleeps;
      }
      sleeps := sleeps + [interval];
      BackoffStep(init, cap, i);
      interval := interval * 2;
      if interval > cap {
        interval := cap;
      }
    }
    assert surroundings[..|surroundings|] == surroundings;
    ok := false;
  }

  /** SendKeys with its own constants: ten attempts, and between them sleeps of 10, 20,
      40, 80, 160 and then 200 milliseconds. */
  method SendKeysByDefault(codec: Codec, data: string, surroundings: seq<Attempt>)
    returns (ok: bool, tries: nat, calls: seq<Call>, sleeps: seq<nat>)
    requires Faithful(codec, data)
    requires |surroundings| == RETRY_MAX_ATTEMPTS
    ensures ok ==> Call(data, true) in calls
    ensures !ok ==> tries == 10
    ensures |calls| <= tries <= 10 && forall c | c in calls :: c == Call(data, true) || c == Call(data, false)
    ensures |sleeps| == if ok then tries - 1 else 10
    ensures forall k | 0 <= k < |sleeps| :: sleeps[k] == [10, 20, 40, 80, 160, 200, 200, 200, 200, 200][k]
  {
    ok, tries, calls, sleeps := SendKeys(codec, data, surroundings, RETRY_INIT_INTERVAL, RETRY_MAX_INTERVAL);
    forall k | 0 <= k < |sleeps| ensures sleeps[k] == [10, 20, 40, 80, 160, 200, 200, 200, 200, 200][k] {
      DefaultBackoff(k);
    }
  }

  /** Successful callback runs among the calls. */
  function Successes(calls: seq<Call>): nat {
    if calls == [] then 0 else Successes(calls[..|calls| - 1]) + (if calls[|calls| - 1].ok then 1 else 0)
  }

  /** The attempt ran the callback successfully, acknowledged or not. */
  predicate Lands(codec: Codec, data: string, a: Attempt) {
    Reaches(codec, data, a) && a.callbackOk
  }

  lemma {:induction false} NothingLands(codec: Codec, data: string, attempts: seq<Attempt>)
    requires Faithful(codec, data)
    ensures Successes(CallsOf(codec, data, attempts)) == 0 <==>
            forall j | 0 <= j < |attempts| :: !Lands(codec, data, attempts[j])
  {
    if attempts != [] {
      var n := |attempts| - 1;
      NothingLands(codec, data, attempts[..n]);
      TryOnceOutcome(codec, data, attempts[n]);
      var calls := CallsOf(codec, data, attempts[..n]);
      if Reaches(codec, data, attempts[n]) {
        assert (calls + [Call(data, attempts[n].callbackOk)])[..|calls|] == calls;
      } else {
        assert calls + [] == calls;
      }
      assert forall j | 0 <= j < n :: attempts[..n][j] == attempts[j];
    }
  }

  /** Delivery is at least once, and exactly once if and only if no earlier attempt
      landed, that is, got its whole request to a callback that succeeded while its
      acknowledgement was lost. */
  lemma ExactlyOnceIff(codec: Codec, data: string, attempts: seq<Attempt>)
    requires Faithful(codec, data) && attempts != []
    requires TryOnce(codec, data, attempts[|attempts| - 1]).1
    ensures Successes(CallsOf(codec, data, attempts)) >= 1
    ensures Successes(CallsOf(codec, data, attempts)) == 1 <==>
            forall j | 0 <= j < |attempts| - 1 :: !Lands(codec, data, attempts[j])
  {
    var n := |attempts| - 1;
    TryOnceOutcome(codec, data, attempts[n]);
    NothingLands(codec, data, attempts[..n]);
    var calls := CallsOf(codec, data, attempts[..n]);
    assert (calls + [Call(data, true)])[..|calls|] == calls;
    assert forall j | 0 <= j < n :: attempts[..n][j] == attempts[j];
  }

  /** A lost acknowledgement: the text is written to the terminal twice. */
  lemma LostReplyDuplicates(codec: Codec, data: string)
    requires Faithful(codec, data) && |codec.encode(data)| <= 1048577
    ensures var n := |codec.encode(data)|;
            var lost := Attempt(true, n, true, true, true, false);
            var fine := Attempt(true, n, true, true, true, true);
            !TryOnce(codec, data, lost).1 && TryOnce(codec, data, fine).1
            && Successes(CallsOf(codec, data, [lost, fine])) == 2
  {
    var n := |codec.encode(data)|;
    var lost := Attempt(true, n, true, true, true, false);
    var fine := Attempt(true, n, true, true, true, true);
    TryOnceOutcome(codec, data, lost);
    TryOnceOutcome(codec, data, fine);
    assert [lost, fine][..1] == [lost] && [lost][..0] == [];
    assert CallsOf(codec, data, [lost]) == [Call(data, true)];
    assert CallsOf(codec, data, [lost, fine]) == [Call(data, true), Call(data, true)];
    assert [Call(data, true), Call(data, true)][..1] == [Call(data, true)];
    assert Successes([Call(data, true)]) == 1;
  }

  /** The size limit as enforced: a request gets through, given a perfect network,
      if and only if its encoding has at most 1048577 bytes; so one byte more than the
      documented 1 MB is still served. */
  lemma SizeLimit(codec: Codec, data: string, callbackOk: bool)
    requires Faithful(codec, data)
    ensures HandleConn(codec, codec.encode(data), callbackOk).0 == [Call(data, callbackOk)] <==>
            |codec.encode(data)| <= 1048577
    ensures HandleConn(codec, codec.encode(data), callbackOk).1 ==
            if |codec.encode(data)| <= 1048577 && callbackOk then Accepted else Refused
  {
    var request := codec.encode(data);
    var visible := request[..Min(|request|, MAX_REQUEST_SIZE + 1)];
    if |visible| == |request| {
      assert visible == request;
    }
  }

  /** Beyond that limit no amount of retrying delivers anything. */
  lemma {:induction false} OversizedNeverDelivered(codec: Codec, data: string, attempts: seq<Attempt>)
    requires Faithful(codec, data) && |codec.encode(data)| > 1048577
    ensures CallsOf(codec, data, attempts) == []
    ensures forall j | 0 <= j < |attempts| :: !TryOnce(codec, data, attempts[j]).1
  {
    if attempts != [] {
      var n := |attempts| - 1;
      OversizedNeverDelivered(codec, data, attempts[..n]);
      TryOnceOutcome(codec, data, attempts[n]);
      assert forall j | 0 <= j < n :: attempts[..n][j] == attempts[j];
    }
  }
}
