/** The HTTP client's retry loop: attempts, request bodies, response bodies and time slept. */
module HttpRetry {
  import opened Std

  type Bytes = seq<byte>

  /**
   What one http.Client.Do yields: an error; an error together with a response whose body is closed
   already (too many redirects); or a response, whose body may turn out not to be readable.
   */
  datatype Outcome =
    | Failed
    | FailedWith(status: int)
    | Answered(status: int, text: Bytes, readable: bool)

  predicate HasResponse(o: Outcome) {
    !o.Failed?
  }

  /** The loop stops here: an answer below 500. */
  predicate Stops(o: Outcome) {
    o.Answered? && o.status < 500
  }

  /** How many attempts a list of outcomes, one for each attempt that is allowed, leads to. */
  function Attempts(outs: seq<Outcome>): (n: nat)
    ensures n <= |outs|
    ensures forall i :: 0 <= i < n - 1 ==> !Stops(outs[i])
    ensures n < |outs| ==> n > 0 && Stops(outs[n - 1])
  {
    if outs == [] then 0 else if Stops(outs[0]) then 1 else 1 + Attempts(outs[1..])
  }

  lemma {:induction false} AttemptsAt(outs: seq<Outcome>, i: nat)
    requires i < |outs| && forall k :: 0 <= k < i ==> !Stops(outs[k])
    ensures Stops(outs[i]) ==> Attempts(outs) == i + 1
    ensures !Stops(outs[i]) ==> Attempts(outs) > i + 1 || Attempts(outs) == |outs| == i + 1
  {
    if i > 0 {
      AttemptsAt(outs[1..], i - 1);
    }
  }

  function Responses(outs: seq<Outcome>): nat {
    if outs == [] then 0
    else Responses(outs[..|outs| - 1]) + if HasResponse(outs[|outs| - 1]) then 1 else 0
  }

  datatype Result = Body(text: Bytes) | Error

  // ---------------------------------------------------------------- backoff

  datatype ConstantBackoff = ConstantBackoff(interval: nat, jitter: nat) {
    /** Milliseconds to sleep before retry number i; draw is what the random source yields. */
    function Next(i: int, draw: nat): (ms: nat)
      requires jitter >= 1
      ensures i <= 0 ==> ms == 0
      ensures i > 0 ==> interval <= ms <= interval + jitter - 1
      ensures i > 0 && draw < jitter ==> ms == interval + draw
    {
      if i <= 0 then 0 else interval + draw % jitter
    }
  }

  const MILLISECOND := 1_000_000

  /** Durations are nanoseconds, cut down to whole milliseconds; Next needs a jitter of one at least. */
  function NewConstantBackoff(interval: nat, maximumJitter: nat): (b: ConstantBackoff)
    ensures b.jitter >= 1 <==> maximumJitter >= MILLISECOND
    ensures interval - MILLISECOND < b.interval * MILLISECOND <= interval
    ensures maximumJitter - MILLISECOND < b.jitter * MILLISECOND <= maximumJitter
  {
    ConstantBackoff(interval / MILLISECOND, maximumJitter / MILLISECOND)
  }

  // ---------------------------------------------------------------- the loop

  /** bytes.Reader over the request's body. */
  class Reader {
    const data: Bytes
    var pos: nat

    constructor (data: Bytes)
      ensures this.data == data && pos == 0
    {
      this.data := data;
      pos := 0;
    }

    method SeekStart()
      modifies this
      ensures pos == 0
    {
      pos := 0;
    }
  }

  /** The network: what was offered as request body, and how often each response body was closed. */
  class Network {
    var offered: seq<Bytes>
    var closes: seq<nat>
    var slept: nat

    constructor ()
      ensures offered == [] && closes == [] && slept == 0
    {
      offered, closes, slept := [], [], 0;
    }

    /** One exchange; the transport may have read any part of the body when it returns. */
    method Exchange(o: Outcome, body: Reader?) returns (response: Option<nat>)
      requires body != null ==> body.pos <= |body.data|
      modifies this, body
      ensures offered == old(offered) + [if body == null then [] else old(body.data[body.pos..])]
      ensures slept == old(slept)
      ensures !HasResponse(o) ==> response == None && closes == old(closes)
      ensures HasResponse(o) ==> response == Some(old(|closes|)) && closes == old(closes) + [0]
      ensures body != null ==> old(body.pos) <= body.pos <= |body.data|
    {
      offered := offered + [if body == null then [] else body.data[body.pos..]];
      if body != null {
        var read: int := *;
        if 0 <= read <= |body.data| - body.pos {
          body.pos := body.pos + read;
        }
      }
      response := None;
      if HasResponse(o) {
        response := Some(|closes|);
        closes := closes + [0];
      }
    }

    method Close(r: nat)
      requires r < |closes|
      modifies `closes
      ensures closes == old(closes)[r := old(closes)[r] + 1]
    {
      closes := closes[r := closes[r] + 1];
    }

    method Sleep(ms: nat)
      modifies `slept
      ensures slept == old(slept) + ms
    {
      slept := slept + ms;
    }
  }

  /** Every response obtained since `before` was closed once, but for the one still held. */
  ghost predicate ClosedBut(before: seq<nat>, closes: seq<nat>, held: Option<nat>) {
    && before <= closes
    && (held.Some? ==> |before| <= held.value < |closes|)
    && forall k :: |before| <= k < |closes| ==> closes[k] == if held == Some(k) then 0 else 1
  }

  /** One attempt: close what the last one left, send, rewind the body. */
  method Attempt(net: Network, bodyReader: Reader?, held: Option<nat>, o: Outcome,
                 ghost before: seq<nat>, ghost whole: Bytes)
    returns (response: Option<nat>)
    requires ClosedBut(before, net.closes, held)
    requires if bodyReader == null then whole == [] else bodyReader.pos == 0 && bodyReader.data == whole
    modifies net, bodyReader
    ensures ClosedBut(before, net.closes, response)
    ensures |net.closes| == old(|net.closes|) + if HasResponse(o) then 1 else 0
    ensures response.Some? <==> HasResponse(o)
    ensures net.offered == old(net.offered) + [whole] && net.slept == old(net.slept)
    ensures bodyReader != null ==> bodyReader.pos == 0
  {
    if held.Some? {
      net.Close(held.value);
    }
    response := net.Exchange(o, bodyReader);
    if bodyReader != null {
      bodyReader.SeekStart();
    }
  }

  function Repeat(b: Bytes, n: nat): seq<Bytes> {
    seq(n, _ => b)
  }

  /** Milliseconds slept after the first m attempts, when none of them ended the loop. */
  function SleptFor(b: ConstantBackoff, draws: seq<nat>, m: nat): nat
    requires b.jitter >= 1 && m <= |draws|
  {
    if m == 0 then 0 else SleptFor(b, draws, m - 1) + b.Next(m - 1, draws[m - 1])
  }

  /** Nothing after the first attempt, and at least the interval, with less than the jitter on top, after each other. */
  lemma {:induction false} SleptWithin(b: ConstantBackoff, draws: seq<nat>, m: nat)
    requires b.jitter >= 1 && m <= |draws|
    ensures m <= 1 ==> SleptFor(b, draws, m) == 0
    ensures m >= 1 ==>
              (m - 1) * b.interval <= SleptFor(b, draws, m) <= (m - 1) * (b.interval + b.jitter - 1)
  {
    if m > 0 {
      SleptWithin(b, draws, m - 1);
    }
    if m > 1 {
      OneMore(m - 2, b.interval);
      OneMore(m - 2, b.interval + b.jitter - 1);
    }
  }

  lemma OneMore(n: nat, x: nat)
    ensures (n + 1) * x == n * x + x
  {
  }

  lemma Scale(a: nat, b: nat, c: nat)
    requires a <= b
    ensures a * c <= b * c
  {
  }

  /** With retryCount retries there are that many sleeps at most. */
  lemma SleptAtMost(b: ConstantBackoff, draws: seq<nat>, m: nat, retryCount: nat)
    requires b.jitter >= 1 && m <= |draws| && m <= retryCount + 1
    ensures SleptFor(b, draws, m) <= retryCount * (b.interval + b.jitter - 1)
  {
    SleptWithin(b, draws, m);
    if m >= 1 {
      Scale(m - 1, retryCount, b.interval + b.jitter - 1);
    }
  }

  lemma Counted(outs: seq<Outcome>, i: nat, whole: Bytes)
    requires i < |outs|
    ensures Responses(outs[..i + 1]) == Responses(outs[..i]) + if HasResponse(outs[i]) then 1 else 0
    ensures Repeat(whole, i + 1) == Repeat(whole, i) + [whole]
  {
    assert outs[..i + 1][..i] == outs[..i];
  }

  /** The for loop of do: how the attempts go, one outcome being ready for each that is allowed. */
  method SendUntilAnswered(net: Network, retryCount: nat, backoff: ConstantBackoff, bodyReader: Reader?,
                           outs: seq<Outcome>, draws: seq<nat>, ghost whole: Bytes)
    returns (response: Option<nat>, last: nat)
    requires |outs| == |draws| == retryCount + 1 && backoff.jitter >= 1
    requires if bodyReader == null then whole == [] else bodyReader.pos == 0 && bodyReader.data == whole
    modifies net, bodyReader
    ensures last < |outs| && last + 1 == Attempts(outs)
    ensures net.offered == old(net.offered) + Repeat(whole, last + 1)
    ensures |net.closes| == old(|net.closes|) + Responses(outs[..last + 1])
    ensures ClosedBut(old(net.closes), net.closes, response)
    ensures response.Some? <==> HasResponse(outs[last])
    ensures net.slept == old(net.slept) + SleptFor(backoff, draws, if Stops(outs[last]) then last else last + 1)
  {
    response := None;
    var i := 0;
    while i <= retryCount
      invariant 0 <= i <= retryCount + 1
      invariant forall k :: 0 <= k < i ==> !Stops(outs[k])
      invariant if bodyReader == null then whole == [] else bodyReader.pos == 0 && bodyReader.data == whole
      invariant net.offered == old(net.offered) + Repeat(whole, i)
      invariant |net.closes| == old(|net.closes|) + Responses(outs[..i])
      invariant i > 0 ==> (response.Some? <==> HasResponse(outs[i - 1]))
      invariant ClosedBut(old(net.closes), net.closes, response)
      invariant net.slept == old(net.slept) + SleptFor(backoff, draws, i)
    {
      response := Attempt(net, bodyReader, response, outs[i], old(net.closes), whole);
      Counted(outs, i, whole);
      AttemptsAt(outs, i);
      if outs[i].Failed? || outs[i].FailedWith? || outs[i].status >= 500 {
        var ms := backoff.Next(i, draws[i]);
        net.Sleep(ms);
        i := i + 1;
      } else {
        return response, i;
      }
    }
    last := i - 1;
  }

  /** The attempts of a call, in their own words: all before the last fail or answer 500 or above. */
  ghost predicate Attempted(outs: seq<Outcome>, n: nat) {
    && 1 <= n <= |outs|
    && (forall i :: 0 <= i < n - 1 ==> !(outs[i].Answered? && outs[i].status < 500))
    && (n < |outs| ==> outs[n - 1].Answered? && outs[n - 1].status < 500)
  }

  /**
   do: after a failure or a status of 500 or above it tries again, up to retryCount times; it offers the
   whole body each time, closes each response once, sleeps as its backoff says, and returns the bytes of
   the last answer, whatever its status.
   */
  method Do(net: Network, retryCount: nat, backoff: ConstantBackoff, body: Option<Bytes>, bodyOk: bool,
            outs: seq<Outcome>, draws: seq<nat>) returns (r: Result, ghost n: nat)
    requires |outs| == |draws| == retryCount + 1 && backoff.jitter >= 1
    modifies net
    ensures body.Some? && !bodyOk ==>
      n == 0 && r == Error && net.offered == old(net.offered) && net.closes == old(net.closes)
      && net.slept == old(net.slept)
    ensures body.None? || bodyOk ==>
      && Attempted(outs, n) && n == Attempts(outs)
      && r == (if outs[n - 1].Answered? && outs[n - 1].readable then Body(outs[n - 1].text) else Error)
      && net.offered == old(net.offered) + Repeat(if body.Some? then body.value else [], n)
      && |net.closes| == old(|net.closes|) + Responses(outs[..n])
      && ClosedBut(old(net.closes), net.closes, None)
      && (var m := if outs[n - 1].Answered? && outs[n - 1].status < 500 then n - 1 else n;
          net.slept == old(net.slept) + SleptFor(backoff, draws, m))
    ensures net.slept <= old(net.slept) + retryCount * (backoff.interval + backoff.jitter - 1)
  {
    var bodyReader: Reader? := null;
    if body.Some? {
      if !bodyOk {
        SleptAtMost(backoff, draws, 0, retryCount);
        return Error, 0;
      }
      bodyReader := new Reader(body.value);
    }
    ghost var whole := if body.Some? then body.value else [];
    var response, last := SendUntilAnswered(net, retryCount, backoff, bodyReader, outs, draws, whole);
    n := last + 1;
    SleptAtMost(backoff, draws, if Stops(outs[last]) then last else n, retryCount);
    if response.None? {
      return Error, n;
    }
    var o := outs[last];
    net.Close(response.value);
    return if o.Answered? && o.readable then Body(o.text) else Error, n;
  }
}
