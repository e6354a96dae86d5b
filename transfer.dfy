/**
 * The partial-write loop of Trance::send, as a function of the results the
 * successive ::send calls report.  The loop keeps two variables: `sent`, the
 * result of the last call, and `to_send = size - sent`.  Each call is offered
 * the buffer from offset `sent` to `size`, so the offset is the LAST call's
 * result rather than a running total, and the loop only stops with success
 * when one call reports at least `size` bytes.
 */
module Transfer {

  /** How one run of Trance::send ends. */
  datatype SendOutcome =
    | SendFailed     // a call reported -1: Trance::send returns -1
    | SendDone       // a call reported at least `size` bytes: Trance::send returns 0
    | NoReturnValue  // size was 0: the loop is not entered and control falls off the end
    | StillSending   // the given call results ran out while the loop was still running

  /**
   * The contract of ::send itself, call by call: it reports -1 or a count
   * between 0 and the length it was offered (`size - sent`).
   */
  predicate Plausible(size: int, sent: int, calls: seq<int>)
    decreases |calls|
  {
    || |calls| == 0
    || calls[0] == -1
    || (0 <= calls[0] <= size - sent && (calls[0] >= size || Plausible(size, calls[0], calls[1..])))
  }

  /**
   * The loop entered with `sent` as the last result: how it ends and the bytes
   * the calls accepted, in order.
   */
  function SendFrom(payload: seq<char>, sent: int, calls: seq<int>): (r: (SendOutcome, seq<char>))
    requires 0 <= sent < |payload|
    requires Plausible(|payload|, sent, calls)
    decreases |calls|
  {
    if calls == [] then (StillSending, [])
    else if calls[0] == -1 then (SendFailed, [])
    else
      var chunk := payload[sent .. sent + calls[0]];
      if calls[0] < |payload| then
        var rest := SendFrom(payload, calls[0], calls[1..]);
        (rest.0, chunk + rest.1)
      else
        (SendDone, chunk)
  }

  /** Trance::send(fd, size) on the buffer's first `size` bytes `payload`. */
  function SendRun(payload: seq<char>, calls: seq<int>): (r: (SendOutcome, seq<char>))
    requires |payload| > 0 ==> Plausible(|payload|, 0, calls)
  {
    if |payload| == 0 then (NoReturnValue, []) else SendFrom(payload, 0, calls)
  }

  /** The index of the first call that ends the loop (-1, or at least `size`), or |calls| if none does. */
  function FirstStop(size: int, calls: seq<int>): (k: nat)
    ensures k <= |calls|
    ensures forall j :: 0 <= j < k ==> calls[j] != -1 && calls[j] < size
    ensures k < |calls| ==> calls[k] == -1 || calls[k] >= size
  {
    if calls == [] || calls[0] == -1 || calls[0] >= size then 0
    else 1 + FirstStop(size, calls[1..])
  }

  /** How the loop ends depends only on the first call that reports -1 or at least `size`. */
  lemma {:induction false} SendFromOutcome(payload: seq<char>, sent: int, calls: seq<int>)
    requires 0 <= sent < |payload|
    requires Plausible(|payload|, sent, calls)
    ensures var k := FirstStop(|payload|, calls);
            SendFrom(payload, sent, calls).0 ==
              if k == |calls| then StillSending
              else if calls[k] == -1 then SendFailed
              else SendDone
    decreases |calls|
  {
    if calls != [] && calls[0] != -1 && calls[0] < |payload| {
      SendFromOutcome(payload, calls[0], calls[1..]);
    }
  }

  /**
   * Trance::send returns -1 at the first call that reports -1 and 0 at the first
   * call that reports at least `size` bytes, whichever comes first.
   */
  lemma SendOutcomeAtFirstStop(payload: seq<char>, calls: seq<int>)
    requires |payload| > 0 && Plausible(|payload|, 0, calls)
    ensures var k := FirstStop(|payload|, calls);
            SendRun(payload, calls).0 ==
              if k == |calls| then StillSending
              else if calls[k] == -1 then SendFailed
              else SendDone
  {
    SendFromOutcome(payload, 0, calls);
  }

  /** On success the last call carried the whole payload, from offset 0. */
  lemma {:induction false} SendFromEndsWithPayload(payload: seq<char>, sent: int, calls: seq<int>)
    requires 0 <= sent < |payload|
    requires Plausible(|payload|, sent, calls)
    requires SendFrom(payload, sent, calls).0 == SendDone
    ensures var wire := SendFrom(payload, sent, calls).1;
            |wire| >= |payload| && wire[|wire| - |payload|..] == payload
    decreases |calls|
  {
    var c := calls[0];
    if c < |payload| {
      SendFromEndsWithPayload(payload, c, calls[1..]);
      var rest := SendFrom(payload, c, calls[1..]).1;
      var wire := SendFrom(payload, sent, calls).1;
      assert wire == payload[sent .. sent + c] + rest;
      assert wire[|wire| - |payload|..] == rest[|rest| - |payload|..];
    } else {
      assert sent == 0 && payload[0 .. c] == payload;
    }
  }

  /** On success exactly the payload went out iff every call before the last accepted nothing. */
  lemma {:induction false} SendFromExact(payload: seq<char>, sent: int, calls: seq<int>)
    requires 0 <= sent < |payload|
    requires Plausible(|payload|, sent, calls)
    requires SendFrom(payload, sent, calls).0 == SendDone
    ensures SendFrom(payload, sent, calls).1 == payload <==> ZeroBefore(|payload|, calls)
    decreases |calls|
  {
    var c := calls[0];
    if c < |payload| {
      SendFromPartial(payload, sent, calls);
      SendFromExact(payload, c, calls[1..]);
      SendFromEndsWithPayload(payload, c, calls[1..]);
      ZeroBeforeStep(|payload|, calls);
      var rest := SendFrom(payload, c, calls[1..]).1;
      PrefixedEquals(payload[sent .. sent + c], rest, payload);
    } else {
      assert sent == 0 && payload[0 .. c] == payload;
    }
  }

  /** Every call before the first one that ends the loop reported 0. */
  predicate ZeroBefore(size: int, calls: seq<int>)
  {
    forall j :: 0 <= j < FirstStop(size, calls) ==> calls[j] == 0
  }

  lemma ZeroBeforeStep(size: int, calls: seq<int>)
    requires calls != [] && calls[0] != -1 && calls[0] < size
    ensures ZeroBefore(size, calls) <==> calls[0] == 0 && ZeroBefore(size, calls[1..])
  {
    var k := FirstStop(size, calls);
    assert k == 1 + FirstStop(size, calls[1..]);
    if ZeroBefore(size, calls) {
      forall j | 0 <= j < k - 1 ensures calls[1..][j] == 0 {
        assert calls[1..][j] == calls[j + 1];
      }
    }
    if calls[0] == 0 && ZeroBefore(size, calls[1..]) {
      forall j | 0 <= j < k ensures calls[j] == 0 {
        if j > 0 { assert calls[j] == calls[1..][j - 1]; }
      }
    }
  }

  /** A chunk followed by at least `target`'s length of bytes is `target` only when the chunk is empty. */
  lemma PrefixedEquals(chunk: seq<char>, rest: seq<char>, target: seq<char>)
    requires |rest| >= |target|
    ensures chunk + rest == target <==> chunk == [] && rest == target
  {
    if chunk + rest == target {
      assert |chunk| == 0;
    }
    if chunk == [] {
      assert chunk + rest == rest;
    }
  }

  /**
   * When Trance::send succeeds, the bytes handed to ::send end with the whole
   * payload, and they are exactly the payload only if every call before the
   * last one accepted nothing: a partial write makes bytes go out twice.
   */
  lemma SendDelivery(payload: seq<char>, calls: seq<int>)
    requires |payload| > 0 && Plausible(|payload|, 0, calls)
    requires SendRun(payload, calls).0 == SendDone
    ensures var wire := SendRun(payload, calls).1;
            && |wire| >= |payload|
            && wire[|wire| - |payload|..] == payload
            && (wire == payload <==> ZeroBefore(|payload|, calls))
  {
    SendFromEndsWithPayload(payload, 0, calls);
    SendFromExact(payload, 0, calls);
  }

  /** A first call that takes everything ends the loop with exactly the payload sent. */
  lemma SendAtOnce(payload: seq<char>, calls: seq<int>)
    requires |payload| > 0 && |calls| > 0 && calls[0] == |payload|
    ensures Plausible(|payload|, 0, calls)
    ensures SendRun(payload, calls) == (SendDone, payload)
  {
    assert payload[0..|payload|] == payload;
  }

  /**
   * After a partial write of p bytes, a call that accepts all it is offered does
   * not end the loop: the next call is offered the last p bytes again.
   */
  lemma SendResendsTail(payload: seq<char>, p: int)
    requires 0 < p < |payload|
    ensures Plausible(|payload|, 0, [p, |payload| - p, p])
    ensures SendRun(payload, [p, |payload| - p, p]) ==
            (StillSending, payload + payload[|payload| - p..])
  {
    ResendPlausible(|payload|, p);
    ResendFirst(payload, p);
    ResendLastTwo(payload, p);
    Rejoin(payload, p, payload[|payload| - p..]);
  }

  lemma ResendFirst(payload: seq<char>, p: int)
    requires 0 < p < |payload|
    requires Plausible(|payload|, 0, [p, |payload| - p, p]) && Plausible(|payload|, p, [|payload| - p, p])
    ensures var rest := SendFrom(payload, p, [|payload| - p, p]);
            SendRun(payload, [p, |payload| - p, p]) == (rest.0, payload[..p] + rest.1)
  {
    var calls := [p, |payload| - p, p];
    assert calls[1..] == [|payload| - p, p];
    SendFromPartial(payload, 0, calls);
  }

  lemma Rejoin(s: seq<char>, p: int, tail: seq<char>)
    requires 0 <= p <= |s|
    ensures s[..p] + (s[p..] + tail) == s + tail
  {
    assert s[..p] + s[p..] == s;
  }

  lemma ResendPlausible(n: int, p: int)
    requires 0 < p < n
    ensures Plausible(n, n - p, [p]) && Plausible(n, p, [n - p, p]) && Plausible(n, 0, [p, n - p, p])
  {
    assert [p, n - p, p][1..] == [n - p, p];
    assert [n - p, p][1..] == [p];
  }

  lemma ResendLastTwo(payload: seq<char>, p: int)
    requires 0 < p < |payload|
    ensures Plausible(|payload|, p, [|payload| - p, p])
    ensures SendFrom(payload, p, [|payload| - p, p]) == (StillSending, payload[p..] + payload[|payload| - p..])
  {
    var n := |payload|;
    ResendPlausible(n, p);
    assert [n - p, p][1..] == [p];
    assert [p][1..] == [];
    SendFromPartial(payload, n - p, [p]);
    SendFromPartial(payload, p, [n - p, p]);
    assert payload[n - p .. n] + [] == payload[n - p..];
    assert payload[p .. n] == payload[p..];
  }

  /**
   * The loop's state against the run it is computing: `goal` is what the whole
   * run gives, `wire` what has been handed to ::send so far, and `sent` and
   * `pending` the last result and the calls still to come.
   */
  ghost predicate OnTrack(payload: seq<char>, goal: (SendOutcome, seq<char>), wire: seq<char>, sent: int, pending: seq<int>)
  {
    && 0 <= sent < |payload|
    && Plausible(|payload|, sent, pending)
    && goal.0 == SendFrom(payload, sent, pending).0
    && goal.1 == wire + SendFrom(payload, sent, pending).1
  }

  /** Entering the loop: nothing has been sent and all calls are to come. */
  lemma OnTrackAtStart(payload: seq<char>, calls: seq<int>)
    requires |payload| > 0 && Plausible(|payload|, 0, calls)
    ensures OnTrack(payload, SendRun(payload, calls), [], 0, calls)
  {
    assert [] + SendFrom(payload, 0, calls).1 == SendFrom(payload, 0, calls).1;
  }

  /** No call results left: the run is still sending, with what was handed over so far. */
  lemma OnTrackExhausted(payload: seq<char>, goal: (SendOutcome, seq<char>), wire: seq<char>, sent: int)
    requires OnTrack(payload, goal, wire, sent, [])
    ensures goal == (StillSending, wire)
  {
    assert wire + [] == wire;
  }

  /**
   * One call of the loop: -1 ends the run with what was handed over, a full
   * write ends it after its chunk, and a partial write appends its chunk and
   * carries on from its result.
   */
  lemma OnTrackStep(payload: seq<char>, goal: (SendOutcome, seq<char>), wire: seq<char>, sent: int, pending: seq<int>)
    requires OnTrack(payload, goal, wire, sent, pending) && pending != []
    ensures pending[0] != -1 ==> 0 <= pending[0] <= |payload| - sent
    ensures pending[0] == -1 ==> goal == (SendFailed, wire)
    ensures pending[0] >= |payload| ==> goal == (SendDone, wire + payload[sent .. sent + pending[0]])
    ensures 0 <= pending[0] < |payload| ==>
              OnTrack(payload, goal, wire + payload[sent .. sent + pending[0]], pending[0], pending[1..])
  {
    SendFromStep(payload, sent, pending);
    if pending[0] == -1 {
      assert wire + [] == wire;
    } else if pending[0] < |payload| {
      var rest := SendFrom(payload, pending[0], pending[1..]);
      assert wire + (payload[sent .. sent + pending[0]] + rest.1) == (wire + payload[sent .. sent + pending[0]]) + rest.1;
    }
  }

  /** One call of the loop entered with `sent` as the last result, in each of its three cases. */
  lemma SendFromStep(payload: seq<char>, sent: int, calls: seq<int>)
    requires 0 <= sent < |payload| && Plausible(|payload|, sent, calls) && calls != []
    ensures calls[0] == -1 ==> SendFrom(payload, sent, calls) == (SendFailed, [])
    ensures calls[0] != -1 ==> 0 <= calls[0] <= |payload| - sent
    ensures calls[0] >= |payload| ==> SendFrom(payload, sent, calls) == (SendDone, payload[sent .. sent + calls[0]])
    ensures 0 <= calls[0] < |payload| ==>
              && Plausible(|payload|, calls[0], calls[1..])
              && var rest := SendFrom(payload, calls[0], calls[1..]);
                 SendFrom(payload, sent, calls) == (rest.0, payload[sent .. sent + calls[0]] + rest.1)
  {
  }

  /** One partial write: the chunk at the current offset, then the loop from the call's result. */
  lemma SendFromPartial(payload: seq<char>, sent: int, calls: seq<int>)
    requires 0 <= sent < |payload| && Plausible(|payload|, sent, calls)
    requires calls != [] && 0 <= calls[0] < |payload|
    ensures var rest := SendFrom(payload, calls[0], calls[1..]);
            SendFrom(payload, sent, calls) == (rest.0, payload[sent .. sent + calls[0]] + rest.1)
  {
  }
}
