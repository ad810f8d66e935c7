/** The request interceptor every store client installs: it holds a request back
    until at least 500 ms have passed since the client last let one through.

    Clock readings are inputs: `now` is the time the request reaches the
    interceptor, and the timer that waits fires `overshoot` ms late (never early). */
module RateLimit {

  const MinGap: int := 500

  /** How long a request arriving at `now` waits when the last one went out at
      `last`: nothing when 500 ms have passed, otherwise just long enough. */
  function DelayFor(last: int, now: int): (d: int)
    ensures d >= 0
    ensures now + d >= last + MinGap
    ensures d == 0 || now + d == last + MinGap
  {
    if now - last < MinGap then MinGap - (now - last) else 0
  }

  /** A store client's interceptor state: when it last let a request through
      (0 before the first one). */
  class Client {
    var lastCall: int

    constructor ()
      ensures lastCall == 0
    {
      lastCall := 0;
    }

    /** `rateLimiter`: wait, then record the time the request goes out. */
    method Throttle(now: int, overshoot: nat) returns (delay: int)
      modifies this
      ensures delay == DelayFor(old(lastCall), now)
      ensures lastCall == now + delay + overshoot
      ensures lastCall >= old(lastCall) + MinGap
    {
      var diff := now - lastCall;
      delay := 0;
      if diff < MinGap {
        delay := MinGap - diff;
      }
      lastCall := now + delay + overshoot;
    }
  }

  /** The times a client lets requests through, one request after another, when
      they reach the interceptor at `arrivals` and each timer fires late by the
      matching `overshoots` entry. */
  function Dispatches(last: int, arrivals: seq<int>, overshoots: seq<nat>): (times: seq<int>)
    requires |overshoots| == |arrivals|
    ensures |times| == |arrivals|
    decreases |arrivals|
  {
    if |arrivals| == 0 then []
    else
      var t := arrivals[0] + DelayFor(last, arrivals[0]) + overshoots[0];
      [t] + Dispatches(t, arrivals[1..], overshoots[1..])
  }

  /** Requests handled one after another go out at least 500 ms apart, the first
      at least 500 ms after the previous one, and none before it arrived. */
  lemma {:induction false} DispatchSpacing(last: int, arrivals: seq<int>, overshoots: seq<nat>)
    requires |overshoots| == |arrivals|
    ensures var times := Dispatches(last, arrivals, overshoots);
      && (|times| > 0 ==> times[0] >= last + MinGap)
      && (forall i :: 0 <= i < |times| ==> times[i] >= arrivals[i])
      && (forall i :: 0 < i < |times| ==> times[i] >= times[i - 1] + MinGap)
    decreases |arrivals|
  {
    if |arrivals| > 0 {
      var times := Dispatches(last, arrivals, overshoots);
      var t := times[0];
      DispatchSpacing(t, arrivals[1..], overshoots[1..]);
      var rest := Dispatches(t, arrivals[1..], overshoots[1..]);
      assert times == [t] + rest;
      forall i | 0 < i < |times| ensures times[i] >= arrivals[i] && times[i] >= times[i - 1] + MinGap {
        assert times[i] == rest[i - 1] && arrivals[i] == arrivals[1..][i - 1];
        if i > 1 {
          assert times[i - 1] == rest[i - 2];
        }
      }
    }
  }
}
