/**
 The goroutines of the source, statement by statement, in a world where between any two of their
 steps all the others may take any number of steps of RabbitProtocol. Endless loops are cut off after
 a number of turns that the caller chooses freely.
 */
module RabbitObject {
  import opened RabbitProtocol

  datatype Who = TheLoop | TheCaller | Subscriber(i: nat) | Handler(d: nat) | Anyone | Nobody

  /** Whose step a label is. */
  function By(l: Label): Who {
    match l
    case OnConn(c) =>
      if c.CallConnect? || c.ConnectDial? || c.ConnectSet? || c.Spawn? then TheCaller
      else if c.CallClose? then Anyone
      else TheLoop
    case Unsubscribe(_) => Anyone
    case FnReturns(d, _) => Handler(d)
    case WgDone(d) => Handler(d)
    case _ => Subscriber(l.i)
  }

  /** The labels of one goroutine, in order. */
  ghost function Own(log: seq<Label>, who: Who): seq<Label> {
    if log == [] then []
    else Own(log[..|log| - 1], who) + if By(log[|log| - 1]) == who then [log[|log| - 1]] else []
  }

  /** The results of Consume in a list of labels. */
  ghost function Results(ls: seq<Label>): seq<bool> {
    if ls == [] then []
    else Results(ls[..|ls| - 1]) + if ls[|ls| - 1].Consume? then [ls[|ls| - 1].ok] else []
  }

  lemma {:induction false} ResultsConcat(xs: seq<Label>, ys: seq<Label>)
    ensures Results(xs + ys) == Results(xs) + Results(ys)
    decreases |ys|
  {
    if ys == [] {
      assert xs + ys == xs;
    } else {
      assert (xs + ys)[..|xs + ys| - 1] == xs + ys[..|ys| - 1];
      ResultsConcat(xs, ys[..|ys| - 1]);
    }
  }

  class World {
    var s: State
    ghost var log: seq<Label>

    ghost predicate Valid()
      reads this
    {
      && Reachable(s)
      && !s.conn.panicked && s.conn.close < |s.conn.closers| && s.conn.waitConnection < |s.conn.gates|
    }

    constructor (s0: State)
      requires Init(s0)
      ensures Valid() && s == s0
    {
      s, log := s0, [];
      new;
      assert Follows(s0, []) && After(s0, []) == s0;
      ReachableInv(s);
    }

    method Do(l: Label)
      requires Valid() && Enabled(s, l)
      modifies this
      ensures Valid() && s == Step(old(s), l)
      ensures Own(log, By(l)) == old(Own(log, By(l))) + [l]
      ensures log == old(log) + [l]
    {
      ghost var s0, p :| Init(s0) && Follows(s0, p) && After(s0, p) == s;
      Cons(s, l, []);
      Concat(s0, p, [l]);
      GatesSafe(Step(s, l));
      assert (log + [l])[..|log|] == log;
      s, log := Step(s, l), log + [l];
    }

    /** Any number of steps of everybody but `who`. */
    method Others(who: Who)
      requires Valid()
      modifies this
      ensures Valid() && |s.subs| == old(|s.subs|) && Own(log, who) == old(Own(log, who)) && old(log) <= log
      ensures who.TheLoop? && !old(s.conn.loop.Down?) ==> s.conn.loop == old(s.conn.loop)
      ensures who.TheCaller? ==> s.conn.caller == old(s.conn.caller)
      ensures who.TheCaller? && old(s.conn.loop.Down?) ==> s.conn.loop.Down?
      ensures who.Subscriber? && who.i < |s.subs| ==> s.subs[who.i].pc == old(s.subs)[who.i].pc
      ensures |s.deliveries| >= old(|s.deliveries|)
      ensures who.Handler? && who.d < old(|s.deliveries|) && !old(s.deliveries)[who.d].stage.Counted? ==>
        s.deliveries[who.d] == old(s.deliveries)[who.d]
    {
      var n: nat := *;
      while n > 0
        invariant Valid() && |s.subs| == old(|s.subs|) && Own(log, who) == old(Own(log, who)) && old(log) <= log
        invariant who.TheLoop? && !old(s.conn.loop.Down?) ==> s.conn.loop == old(s.conn.loop)
        invariant who.TheCaller? ==> s.conn.caller == old(s.conn.caller)
        invariant who.TheCaller? && old(s.conn.loop.Down?) ==> s.conn.loop.Down?
        invariant who.Subscriber? && who.i < |s.subs| ==> s.subs[who.i].pc == old(s.subs)[who.i].pc
        invariant |s.deliveries| >= old(|s.deliveries|)
        invariant who.Handler? && who.d < old(|s.deliveries|) && !old(s.deliveries)[who.d].stage.Counted? ==>
          s.deliveries[who.d] == old(s.deliveries)[who.d]
      {
        var l: Label := *;
        if Enabled(s, l) && By(l) != who {
          ReachableInv(s);
          OthersKeep(s, l, who);
          assert (log + [l])[..|log|] == log;
          Do(l);
        }
        n := n - 1;
      }
    }

    /** After anything the others do, the reconnect goroutine takes its step l. */
    method LoopActs(l: ConnLabel)
      requires Valid() && ByLoop(l) && s.conn.loop == LoopFrom(l)
      modifies this
      ensures Valid() && s.conn.loop == LoopTo(l)
      ensures Own(log, TheLoop) == old(Own(log, TheLoop)) + [OnConn(l)]
    {
      Others(TheLoop);
      Do(OnConn(l));
    }

    /** After anything the others do, the caller of Connect takes its step l. */
    method CallerActs(l: ConnLabel)
      requires Valid() && ByCaller(l) && s.conn.caller == CallerFrom(l) && s.conn.loop.Down?
      modifies this
      ensures Valid() && s.conn.caller == CallerTo(l) && s.conn.loop == if l.Spawn? then Starting else Down
      ensures Own(log, TheCaller) == old(Own(log, TheCaller)) + [OnConn(l)]
    {
      Others(TheCaller);
      Do(OnConn(l));
    }

    /** After anything the others do, subscriber i takes its step l. */
    method SubActs(i: nat, l: Label)
      requires Valid() && i < |s.subs| && By(l) == Subscriber(i) && SubCan(s.subs[i].pc, l)
      modifies this
      ensures Valid() && |s.subs| == old(|s.subs|) && SubMoves(s.subs[i].pc, l)
      ensures Own(log, Subscriber(i)) == old(Own(log, Subscriber(i))) + [l]
      ensures |s.deliveries| >= old(|s.deliveries|) + if l.Receive? then 1 else 0
    {
      Others(Subscriber(i));
      ReachableInv(s);
      assert SubInv(s, i);
      Do(l);
    }
  }

  /** The steps of the reconnect goroutine that depend on its own position only, from where to where. */
  predicate ByLoop(l: ConnLabel) {
    l.Register? || l.Drop? || l.Dial? || l.SetConnected? || l.OpenGate?
  }

  function LoopFrom(l: ConnLabel): Loop
    requires ByLoop(l)
  {
    match l
    case Register => Starting
    case Drop => Watching
    case Dial(_) => Dialing
    case SetConnected => Dialed
    case OpenGate => Opening
  }

  function LoopTo(l: ConnLabel): Loop
    requires ByLoop(l)
  {
    match l
    case Register => Watching
    case Drop => Dialing
    case Dial(ok) => if ok then Dialed else Dialing
    case SetConnected => Opening
    case OpenGate => Starting
  }

  /** The same for the steps of Connect after its first. */
  predicate ByCaller(l: ConnLabel) {
    l.ConnectDial? || l.ConnectSet? || l.Spawn?
  }

  function CallerFrom(l: ConnLabel): Caller
    requires ByCaller(l)
  {
    match l
    case ConnectDial(_) => FirstDial
    case ConnectSet => FirstDialed
    case Spawn => Spawning
  }

  function CallerTo(l: ConnLabel): Caller
    requires ByCaller(l)
  {
    match l
    case ConnectDial(ok) => if ok then FirstDialed else Idle
    case ConnectSet => Spawning
    case Spawn => Idle
  }

  /** And for the steps of a subscriber. */
  predicate SubCan(p: Pc, l: Label) {
    match l
    case Check(_) => p.Checking?
    case Recheck(_) => p.Rechecking?
    case Consume(_, _) => p.Consuming?
    case Slept(_) => p.Sleeping?
    case Receive(_) => p.Ranging?
    case Launch(_) => p.Launching?
    case RangeEnd(_) => p.Ranging?
    case _ => false
  }

  predicate SubMoves(p: Pc, l: Label) {
    match l
    case Check(_) => p.Waiting? || p.Finished?
    case Recheck(_) => p.Consuming? || p.Checking?
    case Consume(_, ok) => if ok then p.Ranging? else p.Sleeping?
    case Receive(_) => p.Launching?
    case Launch(_) => p.Ranging?
    case _ => p.Checking?
  }

  lemma OthersKeep(s: State, l: Label, who: Who)
    requires Inv(s) && Enabled(s, l) && By(l) != who
    ensures |Step(s, l).subs| == |s.subs|
    ensures who.TheLoop? && !s.conn.loop.Down? ==> Step(s, l).conn.loop == s.conn.loop
    ensures who.TheCaller? ==> Step(s, l).conn.caller == s.conn.caller
    ensures who.TheCaller? && s.conn.loop.Down? ==> Step(s, l).conn.loop.Down?
    ensures who.Subscriber? && who.i < |s.subs| ==> Step(s, l).subs[who.i].pc == s.subs[who.i].pc
    ensures |Step(s, l).deliveries| >= |s.deliveries|
    ensures who.Handler? && who.d < |s.deliveries| && !s.deliveries[who.d].stage.Counted? ==>
      Step(s, l).deliveries[who.d] == s.deliveries[who.d]
  {
    if l.Launch? {
      assert SubInv(s, l.i);
    }
  }

  // ---------------------------------------------------------------- connection.go

  /** The steps of one call of Connect: the look at connected, the dial, the set, the start of the loop. */
  function ConnectLabels(already: bool, err: bool): seq<Label> {
    [OnConn(CallConnect)] +
    if already then []
    else if err then [OnConn(ConnectDial(false))]
    else [OnConn(ConnectDial(true)), OnConn(ConnectSet), OnConn(Spawn)]
  }

  /**
   Connect and connect: connected already, or one dial and, if it works, connected set and a new
   reconnect loop. The labels say what the call itself did, in order.
   */
  method Connect(w: World) returns (err: bool)
    requires w.Valid() && w.s.conn.caller.Idle? && w.s.conn.loop.Down?
    modifies w
    ensures w.Valid() && w.s.conn.caller.Idle?
    ensures err ==> !old(w.s.conn.connected) && w.s.conn.loop.Down?
    ensures !err ==> if old(w.s.conn.connected) then w.s == old(w.s) else w.s.conn.loop.Starting?
    ensures Own(w.log, TheCaller) == old(Own(w.log, TheCaller)) + ConnectLabels(old(w.s.conn.connected), err)
  {
    var already := w.s.conn.connected;
    w.Do(OnConn(CallConnect));
    if already {
      return false;
    }
    var ok: bool := *;
    w.CallerActs(ConnectDial(ok));
    if !ok {
      return true;
    }
    w.CallerActs(ConnectSet);
    w.CallerActs(Spawn);
    return false;
  }

  /**
   reconnect: it returns only when it has seen the close channel closed, takes a step in every turn
   it is given until then, and never closes a gate twice.
   */
  method Reconnect(w: World, turns: nat) returns (returned: bool)
    requires w.Valid() && w.s.conn.loop.Starting?
    modifies w
    ensures w.Valid() && !w.s.conn.panicked
    ensures returned <==> w.s.conn.loop.Down?
    ensures returned ==> w.s.conn.closers[w.s.conn.close]
    ensures !returned ==> |Own(w.log, TheLoop)| >= old(|Own(w.log, TheLoop)|) + turns
  {
    var connect := false; // skip the first connect
    for n := 0 to turns
      invariant w.Valid() && if connect then w.s.conn.loop.Dialing? else w.s.conn.loop.Starting?
      invariant |Own(w.log, TheLoop)| >= old(|Own(w.log, TheLoop)|) + n
    {
      if connect {
        var ok: bool := *;
        w.LoopActs(Dial(ok));
        if !ok {
          continue;
        }
        w.LoopActs(SetConnected);
        w.LoopActs(OpenGate);
      }
      connect := true;
      w.LoopActs(Register);
      var seen := SeesClose(w);
      if seen {
        return true;
      }
      w.LoopActs(Drop);
    }
    return false;
  }

  /** The close case of the select, taken if the channel is closed and the select picks it. */
  method SeesClose(w: World) returns (seen: bool)
    requires w.Valid() && w.s.conn.loop.Watching?
    modifies w
    ensures w.Valid() && |Own(w.log, TheLoop)| >= old(|Own(w.log, TheLoop)|)
    ensures if seen then w.s.conn.loop.Down? && w.s.conn.closers[w.s.conn.close] else w.s.conn.loop.Watching?
  {
    w.Others(TheLoop);
    var picked: bool := *;
    seen := picked && w.s.conn.closers[w.s.conn.close];
    if seen {
      w.Do(OnConn(SeeClose));
    }
  }

  method Close(w: World)
    requires w.Valid()
    modifies w
    ensures w.Valid() && Closed(w.s.conn) && w.log == old(w.log) + [OnConn(CallClose)]
    ensures w.s.deliveries == old(w.s.deliveries) && w.s.subs == old(w.s.subs)
    ensures !old(w.s.conn.closers[w.s.conn.close]) ==> !w.s.conn.connected
  {
    w.Do(OnConn(CallClose));
  }

  // ---------------------------------------------------------------- rabbitmq.go

  /** Disconnect: when Wait returns, every delivery received by then was handled to its end. */
  method Disconnect(w: World) returns (waited: bool)
    requires w.Valid()
    modifies w
    ensures w.Valid()
    ensures old(w.log) + [OnConn(CallClose)] <= w.log && (waited <==> w.s.wg == 0)
    ensures waited ==> forall d :: 0 <= d < |w.s.deliveries| ==> w.s.deliveries[d].stage.Done?
  {
    Close(w);
    w.Others(Nobody);
    if w.s.wg != 0 {
      return false; // still waiting
    }
    forall d | 0 <= d < |w.s.deliveries| ensures w.s.deliveries[d].stage.Done? {
      NoneInFlight(w.s, d);
    }
    return true;
  }

  /** Unsubscribe: however things go on, the subscriber calls Consume once more at most, not after its next check. */
  method UnsubscribeSub(w: World, i: nat)
    requires w.Valid() && i < |w.s.subs|
    modifies w
    ensures w.Valid() && |w.s.subs| == old(|w.s.subs|) && w.s.subs[i].pc == old(w.s.subs)[i].pc
    ensures w.s.subs[i].pc.Checking? ==> Step(w.s, Check(i)).subs[i].pc.Finished?
    ensures forall run :: Follows(w.s, run) ==> Consumes(run, i) <= Pending(w.s.subs[i].pc)
  {
    w.Do(Unsubscribe(i));
    forall run | Follows(w.s, run) ensures Consumes(run, i) <= Pending(w.s.subs[i].pc) {
      UnsubscribedConsumes(w.s, run, i);
    }
  }

  const MIN_DELAY := 100
  const MAX_DELAY := 30_000

  function Pow2(k: nat): nat {
    if k == 0 then 1 else 2 * Pow2(k - 1)
  }

  /** How many failures in a row a list of results of Consume ends with. */
  function Failures(results: seq<bool>): nat {
    if results == [] || results[|results| - 1] then 0 else 1 + Failures(results[..|results| - 1])
  }

  /** The pauses, in milliseconds: after the k-th failure in a row (from 0) min(100 * 2^k, 30000). */
  function Pauses(results: seq<bool>): seq<nat> {
    if results == [] then []
    else
      var before, last := results[..|results| - 1], results[|results| - 1];
      if last then Pauses(before) else Pauses(before) + [PauseAfter(Failures(before))]
  }

  function PauseAfter(k: nat): nat {
    if MIN_DELAY * Pow2(k) <= MAX_DELAY then MIN_DELAY * Pow2(k) else MAX_DELAY
  }

  /** What reSubscribeDelay holds after k failures in a row. */
  function StoredDelay(k: nat): nat {
    if k <= 9 then MIN_DELAY * Pow2(k) else 2 * MAX_DELAY
  }

  lemma {:induction false} Pow2Grows(k: nat)
    requires k >= 9
    ensures Pow2(k) >= 512
  {
    if k > 9 {
      Pow2Grows(k - 1);
    } else {
      assert Pow2(9) == 2 * Pow2(8) && Pow2(8) == 2 * Pow2(7) && Pow2(7) == 2 * Pow2(6);
      assert Pow2(6) == 2 * Pow2(5) && Pow2(5) == 2 * Pow2(4) && Pow2(4) == 2 * Pow2(3);
    }
  }

  lemma {:induction false} Pow2Small(k: nat)
    requires k <= 8
    ensures 1 <= Pow2(k) <= 256
  {
    Pow2Up(k, 8);
    assert Pow2(8) == 2 * Pow2(7) && Pow2(7) == 2 * Pow2(6) && Pow2(6) == 2 * Pow2(5);
    assert Pow2(5) == 2 * Pow2(4) && Pow2(4) == 2 * Pow2(3);
  }

  lemma {:induction false} Pow2Up(j: nat, k: nat)
    requires j <= k
    ensures 1 <= Pow2(j) <= Pow2(k)
  {
    if j < k {
      Pow2Up(j, k - 1);
    } else if k > 0 {
      Pow2Up(0, k - 1);
    }
  }

  /** The delay a failure sleeps, and the one it leaves behind, which never exceeds a minute. */
  lemma DelayStep(k: nat)
    ensures var d := StoredDelay(k);
            var slept := if d > MAX_DELAY then MAX_DELAY else d;
            slept == PauseAfter(k) && slept * 2 == StoredDelay(k + 1)
    ensures StoredDelay(k) <= 60_000
  {
    if k <= 8 {
      Pow2Small(k);
    } else {
      Pow2Grows(k);
      Pow2Small(8);
      assert Pow2(9) == 2 * Pow2(8);
    }
  }

  /** Two failures, a success and a failure: 100 ms, 200 ms and 100 ms again. */
  lemma PausesExample()
    ensures Pauses([false, false, true, false]) == [100, 200, 100]
    ensures PauseAfter(8) == 25_600 && PauseAfter(9) == PauseAfter(10) == 30_000
  {
    assert [false, false, true, false][..3] == [false, false, true] && [false, false, true][..2] == [false, false];
    assert [false, false][..1] == [false] && [false][..0] == [];
    assert Pow2(1) == 2 && Pow2(2) == 4 && Pow2(4) == 4 * Pow2(2) && Pow2(6) == 4 * Pow2(4) && Pow2(8) == 4 * Pow2(6);
    assert Pow2(9) == 2 * Pow2(8) && Pow2(10) == 2 * Pow2(9);
  }

  /** How one turn of resubscribe comes to an end. */
  datatype Turn = Unsubscribed | ShutDown | Blocked | NotConnected | Consumed(ok: bool)

  /** The steps a subscriber takes in such a turn, up to the result of Consume. */
  function TurnLabels(i: nat, t: Turn): seq<Label> {
    match t
    case Unsubscribed => [Check(i)]
    case ShutDown => [Check(i), Shutdown(i)]
    case Blocked => [Check(i)]
    case NotConnected => [Check(i), Wake(i), Recheck(i)]
    case Consumed(ok) => [Check(i), Wake(i), Recheck(i), Consume(i, ok)]
  }

  predicate PcAfter(p: Pc, t: Turn) {
    match t
    case Unsubscribed => p.Finished?
    case ShutDown => p.Finished?
    case Blocked => p.Waiting?
    case NotConnected => p.Checking?
    case Consumed(ok) => if ok then p.Ranging? else p.Sleeping?
  }

  /** The select on the close channel and the gate, whichever is ready; neither is, in an outage only. */
  method Await(w: World, i: nat) returns (t: Turn)
    requires w.Valid() && i < |w.s.subs| && w.s.subs[i].pc.Waiting?
    modifies w
    ensures w.Valid() && |w.s.subs| == old(|w.s.subs|)
    ensures t.ShutDown? || t.Blocked? || t.NotConnected?
    ensures if t.NotConnected? then w.s.subs[i].pc.Rechecking? else PcAfter(w.s.subs[i].pc, t)
    ensures t.Blocked? ==> Outage(w.s.conn)
    ensures Own(w.log, Subscriber(i)) == old(Own(w.log, Subscriber(i))) +
            if t.ShutDown? then [Shutdown(i)] else if t.NotConnected? then [Wake(i)] else []
  {
    w.Others(Subscriber(i));
    var preferShutdown: bool := *;
    NobodyForgotten(w.s, i);
    var shut, open := Enabled(w.s, Shutdown(i)), Enabled(w.s, Wake(i));
    if shut && (preferShutdown || !open) {
      w.Do(Shutdown(i));
      return ShutDown;
    } else if !open {
      return Blocked;
    }
    w.Do(Wake(i));
    return NotConnected;
  }

  /** One turn of resubscribe up to the result of Consume. */
  method AwaitAndConsume(w: World, i: nat) returns (t: Turn)
    requires w.Valid() && i < |w.s.subs| && w.s.subs[i].pc.Checking?
    modifies w
    ensures w.Valid() && |w.s.subs| == old(|w.s.subs|) && PcAfter(w.s.subs[i].pc, t)
    ensures t.Blocked? ==> Outage(w.s.conn)
    ensures Own(w.log, Subscriber(i)) == old(Own(w.log, Subscriber(i))) + TurnLabels(i, t)
  {
    w.SubActs(i, Check(i));
    if w.s.subs[i].pc.Finished? {
      return Unsubscribed;
    }
    t := Await(w, i);
    if !t.NotConnected? {
      return t;
    }
    w.SubActs(i, Recheck(i));
    if w.s.subs[i].pc.Checking? {
      return NotConnected;
    }
    var ok: bool := *;
    w.SubActs(i, Consume(i, ok));
    return Consumed(ok);
  }

  /**
   resubscribe of subscriber i. It comes to an end when it is unsubscribed or sees the shutdown, and is
   cut off when it is blocked, which happens in an outage only, or after so many whole turns.
   */
  method Resubscribe(w: World, i: nat, turns: nat)
    returns (ended: bool, blocked: bool, ghost trace: seq<Label>, sleeps: seq<nat>)
    requires w.Valid() && i < |w.s.subs| && w.s.subs[i].pc.Checking?
    modifies w
    ensures w.Valid() && |w.s.subs| == old(|w.s.subs|)
    ensures if ended then w.s.subs[i].pc.Finished?
            else if blocked then w.s.subs[i].pc.Waiting? && Outage(w.s.conn)
            else |trace| >= 3 * turns
    ensures Own(w.log, Subscriber(i)) == old(Own(w.log, Subscriber(i))) + trace
    ensures sleeps == Pauses(Results(trace))
  {
    trace, sleeps := [], [];
    var reSubscribeDelay := MIN_DELAY;
    ghost var k, results, own := 0, [], Own(w.log, Subscriber(i));
    for n := 0 to turns
      invariant w.Valid() && |w.s.subs| == old(|w.s.subs|) && w.s.subs[i].pc.Checking?
      invariant results == Results(trace) && sleeps == Pauses(results)
      invariant k == Failures(results) && reSubscribeDelay == StoredDelay(k)
      invariant Own(w.log, Subscriber(i)) == own + trace && |trace| >= 3 * n
    {
      var t, slept, next, ls := TakeTurn(w, i, reSubscribeDelay, k);
      ResultsConcat(trace, ls);
      PausesNext(results, t);
      Regroup(own, trace, ls);
      trace, results, sleeps := trace + ls, results + ResultOf(t), sleeps + slept;
      k, reSubscribeDelay := FailuresAfter(t, k), next;
      if t.Unsubscribed? || t.ShutDown? {
        return true, false, trace, sleeps;
      } else if t.Blocked? {
        return false, true, trace, sleeps;
      }
    }
    return false, false, trace, sleeps;
  }

  // What a turn adds to the results, the failures in a row after it, and its pause, k failures coming before it.

  function ResultOf(t: Turn): seq<bool> {
    if t.Consumed? then [t.ok] else []
  }

  function FailuresAfter(t: Turn, k: nat): nat {
    if !t.Consumed? then k else if t.ok then 0 else k + 1
  }

  function PausesIn(t: Turn, k: nat): seq<nat> {
    if t.Consumed? && !t.ok then [PauseAfter(k)] else []
  }

  lemma Regroup(a: seq<Label>, b: seq<Label>, c: seq<Label>)
    ensures (a + b) + c == a + (b + c)
  {
  }

  lemma PausesNext(results: seq<bool>, t: Turn)
    ensures Failures(results + ResultOf(t)) == FailuresAfter(t, Failures(results))
    ensures Pauses(results + ResultOf(t)) == Pauses(results) + PausesIn(t, Failures(results))
  {
    if t.Consumed? {
      assert (results + [t.ok])[..|results|] == results;
    } else {
      assert results + [] == results;
    }
  }

  /** One whole turn: the wait, Consume, and what follows its result. */
  method TakeTurn(w: World, i: nat, delay: nat, ghost k: nat)
    returns (t: Turn, slept: seq<nat>, next: nat, ghost ls: seq<Label>)
    requires w.Valid() && i < |w.s.subs| && w.s.subs[i].pc.Checking? && delay == StoredDelay(k)
    modifies w
    ensures w.Valid() && |w.s.subs| == old(|w.s.subs|)
    ensures if t.NotConnected? || t.Consumed? then w.s.subs[i].pc.Checking? && |ls| >= 3
            else PcAfter(w.s.subs[i].pc, t) && (t.Blocked? ==> Outage(w.s.conn))
    ensures Own(w.log, Subscriber(i)) == old(Own(w.log, Subscriber(i))) + ls && Results(ls) == ResultOf(t)
    ensures slept == PausesIn(t, k) && next == StoredDelay(FailuresAfter(t, k))
  {
    ghost var own := Own(w.log, Subscriber(i));
    t := AwaitAndConsume(w, i);
    ls, slept, next := TurnLabels(i, t), [], delay;
    TurnResults(i, t);
    if t.Consumed? {
      ghost var more;
      slept, next, more := AfterConsume(w, i, t.ok, delay, k);
      ResultsConcat(ls, more);
      Regroup(own, ls, more);
      ls := ls + more;
    }
  }

  /** The switch on the result of Consume, and the deliveries after a success; k failures came before it. */
  method AfterConsume(w: World, i: nat, ok: bool, delay: nat, ghost k: nat)
    returns (slept: seq<nat>, next: nat, ghost more: seq<Label>)
    requires w.Valid() && i < |w.s.subs| && delay == StoredDelay(k)
    requires if ok then w.s.subs[i].pc.Ranging? else w.s.subs[i].pc.Sleeping?
    modifies w
    ensures w.Valid() && |w.s.subs| == old(|w.s.subs|) && w.s.subs[i].pc.Checking?
    ensures slept == (if ok then [] else [PauseAfter(k)]) && next == StoredDelay(if ok then 0 else k + 1)
    ensures Own(w.log, Subscriber(i)) == old(Own(w.log, Subscriber(i))) + more && Results(more) == []
  {
    if ok {
      var n := RangeOver(w, i);
      RoundsConsumeNothing(i, n);
      NoConsumes(Rounds(i, n) + [RangeEnd(i)]);
      return [], MIN_DELAY, Rounds(i, n) + [RangeEnd(i)];
    }
    var ms, next' := SleepAfterFailure(w, i, delay, k);
    NoConsumes([Slept(i)]);
    return [ms], next', [Slept(i)];
  }

  /** The default case of the switch: cap the delay, sleep it, double it. */
  method SleepAfterFailure(w: World, i: nat, delay: nat, ghost k: nat) returns (slept: nat, next: nat)
    requires w.Valid() && i < |w.s.subs| && w.s.subs[i].pc.Sleeping? && delay == StoredDelay(k)
    modifies w
    ensures w.Valid() && |w.s.subs| == old(|w.s.subs|) && w.s.subs[i].pc.Checking?
    ensures slept == PauseAfter(k) && next == StoredDelay(k + 1)
    ensures Own(w.log, Subscriber(i)) == old(Own(w.log, Subscriber(i))) + [Slept(i)]
  {
    slept := delay;
    if slept > MAX_DELAY {
      slept := MAX_DELAY;
    }
    DelayStep(k);
    w.SubActs(i, Slept(i));
    next := slept * 2;
  }

  lemma TurnResults(i: nat, t: Turn)
    ensures Results(TurnLabels(i, t)) == ResultOf(t)
  {
    var ls := TurnLabels(i, t);
    var n := |ls| - 1;
    NoConsumes(ls[..n]);
  }

  lemma {:induction false} NoConsumes(ls: seq<Label>)
    requires forall l <- ls :: !l.Consume?
    ensures Results(ls) == []
  {
    if ls != [] {
      NoConsumes(ls[..|ls| - 1]);
    }
  }

  lemma {:induction false} RoundsConsumeNothing(i: nat, n: nat)
    ensures forall l <- Rounds(i, n) :: !l.Consume?
  {
    if n > 0 {
      RoundsConsumeNothing(i, n - 1);
    }
  }

  /** n deliveries, each counted and then given its goroutine. */
  function Rounds(i: nat, n: nat): seq<Label> {
    if n == 0 then [] else Rounds(i, n - 1) + [Receive(i), Launch(i)]
  }

  /**
   for d := range sub: each of the n deliveries is counted and right after that gets a goroutine of its
   own; none that the wait group counts is left without one.
   */
  method RangeOver(w: World, i: nat) returns (ghost n: nat)
    requires w.Valid() && i < |w.s.subs| && w.s.subs[i].pc.Ranging?
    modifies w
    ensures w.Valid() && |w.s.subs| == old(|w.s.subs|) && w.s.subs[i].pc.Checking?
    ensures Own(w.log, Subscriber(i)) == old(Own(w.log, Subscriber(i))) + Rounds(i, n) + [RangeEnd(i)]
    ensures |w.s.deliveries| >= old(|w.s.deliveries|) + n
    ensures forall d :: 0 <= d < |w.s.deliveries| && w.s.deliveries[d].sub == i ==> !w.s.deliveries[d].stage.Counted?
  {
    n := 0;
    var left: nat := *;
    while left > 0
      invariant w.Valid() && |w.s.subs| == old(|w.s.subs|) && w.s.subs[i].pc.Ranging?
      invariant Own(w.log, Subscriber(i)) == old(Own(w.log, Subscriber(i))) + Rounds(i, n)
      invariant |w.s.deliveries| >= old(|w.s.deliveries|) + n
      decreases left
    {
      w.SubActs(i, Receive(i));
      w.SubActs(i, Launch(i));
      n := n + 1;
      left := left - 1;
    }
    w.SubActs(i, RangeEnd(i));
    CheckingLeavesNone(w.s, i);
  }

  /** Between its rounds a subscriber has no delivery that is counted and not yet running. */
  lemma CheckingLeavesNone(s: State, i: nat)
    requires Reachable(s) && i < |s.subs| && !s.subs[i].pc.Launching?
    ensures forall d :: 0 <= d < |s.deliveries| && s.deliveries[d].sub == i ==> !s.deliveries[d].stage.Counted?
  {
    ReachableInv(s);
  }

  /** The goroutine of one delivery: fn with its acknowledgement, then wg.Done. */
  method HandleDelivery(w: World, d: nat) returns (err: bool)
    requires w.Valid() && d < |w.s.deliveries| && w.s.deliveries[d].stage.Running?
    modifies w
    ensures w.Valid() && d < |w.s.deliveries| && w.s.deliveries[d].stage.Done?
    ensures w.s.deliveries[d].fnRuns == 1 && w.s.deliveries[d].stage.err == err
    ensures w.s.deliveries[d].sub < |w.s.subs|
    ensures var p, x := w.s.subs[w.s.deliveries[d].sub], w.s.deliveries[d];
            && x.acks == (if !p.autoAck && p.ackSuccess && !err then 1 else 0)
            && x.nacks == (if !p.autoAck && err then 1 else 0)
    ensures Own(w.log, Handler(d)) == old(Own(w.log, Handler(d))) + [FnReturns(d, err), WgDone(d)]
  {
    err := RunFn(w, d);
    w.Others(Handler(d));
    w.Do(WgDone(d));
    HandledOnce(w.s, d);
  }

  method RunFn(w: World, d: nat) returns (err: bool)
    requires w.Valid() && d < |w.s.deliveries| && w.s.deliveries[d].stage.Running?
    modifies w
    ensures w.Valid() && d < |w.s.deliveries| && w.s.deliveries[d].stage == Returned(err)
    ensures Own(w.log, Handler(d)) == old(Own(w.log, Handler(d))) + [FnReturns(d, err)]
  {
    w.Others(Handler(d));
    err := *;
    ReachableInv(w.s);
    assert DeliveryInv(w.s, w.s.deliveries[d]);
    w.Do(FnReturns(d, err));
  }
}
