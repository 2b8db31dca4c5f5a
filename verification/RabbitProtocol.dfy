/**
 One broker connection as a state machine: the reconnect goroutine, one caller of Connect, any
 number of subscriber goroutines and of message handlers, and callers of Close and Unsubscribe.

 A Go channel that is only ever closed is an identity (an index) with a bit that says it is closed:
 `gates` are the channels that waitConnection has held, `closers` those that close has held.
 Connect is called only while no reconnect loop is alive and no other Connect runs.
 */
module RabbitProtocol {
  /** Where the reconnect goroutine is. */
  datatype Loop = Down | Starting | Watching | Dialing | Dialed | Opening

  /** Where the call of Connect is. */
  datatype Caller = Idle | FirstDial | FirstDialed | Spawning

  datatype Conn = Conn(connected: bool, close: nat, closers: seq<bool>,
                       waitConnection: nat, gates: seq<bool>,
                       loop: Loop, caller: Caller, panicked: bool)

  /** Where a subscriber's resubscribe goroutine is. */
  datatype Pc =
    | Checking
    | Waiting(gate: nat, closer: nat)
    | Rechecking
    | Consuming
    | Sleeping
    | Ranging
    | Launching(d: nat)
    | Finished

  datatype Sub = Sub(mayRun: bool, autoAck: bool, ackSuccess: bool, pc: Pc)

  datatype Stage = Counted | Running | Returned(err: bool) | Done(err: bool)

  datatype Delivery = Delivery(sub: nat, stage: Stage, fnRuns: nat, acks: nat, nacks: nat)

  datatype State = State(conn: Conn, subs: seq<Sub>, deliveries: seq<Delivery>, wg: int)

  datatype ConnLabel =
    | CallConnect | ConnectDial(ok: bool) | ConnectSet | Spawn
    | Register | Drop | SeeClose | Dial(ok: bool) | SetConnected | OpenGate
    | CallClose

  datatype Label =
    | OnConn(c: ConnLabel)
    | Check(i: nat) | Wake(i: nat) | Shutdown(i: nat) | Recheck(i: nat) | Consume(i: nat, ok: bool)
    | Slept(i: nat) | Receive(i: nat) | Launch(i: nat) | RangeEnd(i: nat) | Unsubscribe(i: nat)
    | FnReturns(d: nat, err: bool) | WgDone(d: nat)

  // ---------------------------------------------------------------- the connection

  /** newRabbitMQConn: both channels made, the gate closed at once. */
  function NewConn(): Conn {
    Conn(false, 0, [false], 0, [true], Down, Idle, false)
  }

  predicate ConnEnabled(c: Conn, l: ConnLabel) {
    !c.panicked && c.close < |c.closers| && c.waitConnection < |c.gates| &&
    match l
    case CallConnect => c.loop.Down? && c.caller.Idle?
    case ConnectDial(_) => c.caller.FirstDial?
    case ConnectSet => c.caller.FirstDialed?
    case Spawn => c.caller.Spawning?
    case Register => c.loop.Starting?
    case Drop => c.loop.Watching?
    case SeeClose => c.loop.Watching? && c.closers[c.close]
    case Dial(_) => c.loop.Dialing?
    case SetConnected => c.loop.Dialed?
    case OpenGate => c.loop.Opening?
    case CallClose => true
  }

  function ConnStep(c: Conn, l: ConnLabel): Conn
    requires ConnEnabled(c, l)
  {
    match l
    case CallConnect =>
      if c.connected then c
      else if c.closers[c.close] then
        c.(caller := FirstDial, close := |c.closers|, closers := c.closers + [false])
      else c.(caller := FirstDial)
    case ConnectDial(ok) => c.(caller := if ok then FirstDialed else Idle)
    case ConnectSet => c.(connected := true, caller := Spawning)
    case Spawn => c.(caller := Idle, loop := Starting)
    case Register => c.(loop := Watching)
    case Drop =>
      c.(connected := false, waitConnection := |c.gates|, gates := c.gates + [false], loop := Dialing)
    case SeeClose => c.(loop := Down)
    case Dial(ok) => c.(loop := if ok then Dialed else Dialing)
    case SetConnected => c.(connected := true, loop := Opening)
    case OpenGate =>
      // closing a channel that is closed already panics
      c.(panicked := c.gates[c.waitConnection], gates := c.gates[c.waitConnection := true], loop := Starting)
    case CallClose =>
      if c.closers[c.close] then c
      else c.(closers := c.closers[c.close := true], connected := false)
  }

  predicate Closed(c: Conn) {
    c.close < |c.closers| && c.closers[c.close]
  }

  /** The loop watches the connection, or is in the windows right around that. */
  predicate Up(c: Conn) {
    c.loop.Opening? || c.loop.Starting? || c.loop.Watching? || c.caller.Spawning?
  }

  predicate Outage(c: Conn) {
    c.loop.Dialing? || c.loop.Dialed? || c.loop.Opening?
  }

  ghost predicate ConnInv(c: Conn) {
    && !c.panicked && c.close < |c.closers| && c.waitConnection + 1 == |c.gates|
    // every gate but the current one is closed, and that one is open during an outage only
    && (forall g :: 0 <= g < c.waitConnection ==> c.gates[g])
    && (!c.gates[c.waitConnection] <==> Outage(c))
    && (c.caller.Idle? || c.loop.Down?)
    && (!c.caller.Idle? && !c.caller.Spawning? ==> !c.connected)
    && (c.loop.Dialing? || c.loop.Dialed? ==> !c.connected)
    // connected, as far as no Close interferes
    && (!c.closers[c.close] ==> (c.connected <==> Up(c)))
  }

  lemma ConnStepKeeps(c: Conn, l: ConnLabel)
    requires ConnInv(c) && ConnEnabled(c, l)
    ensures ConnInv(ConnStep(c, l))
  {
  }

  // ---------------------------------------------------------------- the whole system

  /** fn's ending: what it tells the server about the delivery. */
  function Settle(s: Sub, err: bool): (nat, nat) {
    if !err && s.ackSuccess && !s.autoAck then (1, 0)
    else if err && !s.autoAck then (0, 1)
    else (0, 0)
  }

  predicate Enabled(s: State, l: Label) {
    match l
    case OnConn(c) => ConnEnabled(s.conn, c)
    case FnReturns(d, _) => d < |s.deliveries| && s.deliveries[d].stage.Running? && s.deliveries[d].sub < |s.subs|
    case WgDone(d) => d < |s.deliveries| && s.deliveries[d].stage.Returned?
    case Unsubscribe(i) => i < |s.subs|
    case Check(i) => i < |s.subs| && s.subs[i].pc.Checking?
    case Wake(i) =>
      && i < |s.subs| && s.subs[i].pc.Waiting?
      && s.subs[i].pc.gate < |s.conn.gates| && s.conn.gates[s.subs[i].pc.gate]
    case Shutdown(i) =>
      && i < |s.subs| && s.subs[i].pc.Waiting?
      && s.subs[i].pc.closer < |s.conn.closers| && s.conn.closers[s.subs[i].pc.closer]
    case Recheck(i) => i < |s.subs| && s.subs[i].pc.Rechecking?
    case Consume(i, _) => i < |s.subs| && s.subs[i].pc.Consuming?
    case Slept(i) => i < |s.subs| && s.subs[i].pc.Sleeping?
    case Receive(i) => i < |s.subs| && s.subs[i].pc.Ranging?
    case Launch(i) => i < |s.subs| && s.subs[i].pc.Launching? && s.subs[i].pc.d < |s.deliveries|
    case RangeEnd(i) => i < |s.subs| && s.subs[i].pc.Ranging?
  }

  function To(s: State, i: nat, pc: Pc): State
    requires i < |s.subs|
  {
    s.(subs := s.subs[i := s.subs[i].(pc := pc)])
  }

  function Step(s: State, l: Label): State
    requires Enabled(s, l)
  {
    match l
    case OnConn(c) => s.(conn := ConnStep(s.conn, c))
    case Check(i) =>
      To(s, i, if s.subs[i].mayRun then Waiting(s.conn.waitConnection, s.conn.close) else Finished)
    case Wake(i) => To(s, i, Rechecking)
    case Shutdown(i) => To(s, i, Finished)
    case Recheck(i) => To(s, i, if s.conn.connected then Consuming else Checking)
    case Consume(i, ok) => To(s, i, if ok then Ranging else Sleeping)
    case Slept(i) => To(s, i, Checking)
    case Receive(i) =>
      // wg.Add(1), before the goroutine is started
      To(s, i, Launching(|s.deliveries|)).(deliveries := s.deliveries + [Delivery(i, Counted, 0, 0, 0)], wg := s.wg + 1)
    case Launch(i) =>
      var d := s.subs[i].pc.d;
      To(s, i, Ranging).(deliveries := s.deliveries[d := s.deliveries[d].(stage := Running)])
    case RangeEnd(i) => To(s, i, Checking)
    case Unsubscribe(i) => s.(subs := s.subs[i := s.subs[i].(mayRun := false)])
    case FnReturns(d, err) =>
      var x := s.deliveries[d];
      var (acks, nacks) := Settle(s.subs[x.sub], err);
      s.(deliveries := s.deliveries[d :=
        x.(stage := Returned(err), fnRuns := x.fnRuns + 1, acks := x.acks + acks, nacks := x.nacks + nacks)])
    case WgDone(d) =>
      s.(deliveries := s.deliveries[d := s.deliveries[d].(stage := Done(s.deliveries[d].stage.err))], wg := s.wg - 1)
  }

  ghost predicate Init(s: State) {
    && s.conn == NewConn() && s.deliveries == [] && s.wg == 0
    && forall i :: 0 <= i < |s.subs| ==> s.subs[i].pc == Checking && (s.subs[i].ackSuccess ==> !s.subs[i].autoAck)
  }

  /** The labels of a run, in order; Follows says each was enabled, After is where they lead. */
  ghost predicate Follows(s: State, run: seq<Label>)
    decreases |run|, 0
  {
    run == [] || Goes(s, run[0], run[1..])
  }

  ghost predicate Goes(s: State, l: Label, rest: seq<Label>)
    decreases |rest|, 1
  {
    Enabled(s, l) && Follows(Step(s, l), rest)
  }

  ghost function After(s: State, run: seq<Label>): State
    requires Follows(s, run)
    decreases |run|, 0
  {
    if run == [] then s else Gone(s, run[0], run[1..])
  }

  ghost function Gone(s: State, l: Label, rest: seq<Label>): State
    requires Goes(s, l, rest)
    decreases |rest|, 1
  {
    After(Step(s, l), rest)
  }

  ghost predicate Reachable(s: State) {
    exists s0, run :: Init(s0) && Follows(s0, run) && After(s0, run) == s
  }

  // ---------------------------------------------------------------- invariant

  /** Deliveries that the wait group still counts. */
  function Open(ds: seq<Delivery>): nat {
    if ds == [] then 0
    else Open(ds[..|ds| - 1]) + if ds[|ds| - 1].stage.Done? then 0 else 1
  }

  lemma {:induction false} OpenUpdate(ds: seq<Delivery>, d: nat, x: Delivery)
    requires d < |ds|
    ensures Open(ds[d := x]) == Open(ds) + (if ds[d].stage.Done? then 1 else 0) - (if x.stage.Done? then 1 else 0)
    decreases |ds|
  {
    var n := |ds| - 1;
    if d == n {
      assert ds[d := x][..n] == ds[..n];
    } else {
      assert ds[d := x][..n] == ds[..n][d := x];
      OpenUpdate(ds[..n], d, x);
    }
  }

  lemma {:induction false} OpenZero(ds: seq<Delivery>, d: nat)
    requires Open(ds) == 0 && d < |ds|
    ensures ds[d].stage.Done?
    decreases |ds|
  {
    if d < |ds| - 1 {
      OpenZero(ds[..|ds| - 1], d);
    }
  }

  /** fn ran once when it returned and not before, and settled the delivery as its subscriber's options say. */
  ghost predicate DeliveryInv(s: State, x: Delivery) {
    && x.sub < |s.subs|
    && match x.stage
       case Counted => x.fnRuns == 0 && x.acks == 0 && x.nacks == 0
       case Running => x.fnRuns == 0 && x.acks == 0 && x.nacks == 0
       case Returned(err) => x.fnRuns == 1 && (x.acks, x.nacks) == Settle(s.subs[x.sub], err)
       case Done(err) => x.fnRuns == 1 && (x.acks, x.nacks) == Settle(s.subs[x.sub], err)
  }

  ghost predicate SubInv(s: State, i: int)
    requires 0 <= i < |s.subs|
  {
    var p := s.subs[i];
    && (p.ackSuccess ==> !p.autoAck)
    && (p.pc.Waiting? ==> p.pc.gate < |s.conn.gates| && p.pc.closer < |s.conn.closers|)
    && (p.pc.Launching? ==> p.pc.d < |s.deliveries| && s.deliveries[p.pc.d] == Delivery(i, Counted, 0, 0, 0))
  }

  ghost predicate Inv(s: State) {
    && ConnInv(s.conn)
    && s.wg == Open(s.deliveries)
    && (forall i :: 0 <= i < |s.subs| ==> SubInv(s, i))
    && (forall d :: 0 <= d < |s.deliveries| ==> DeliveryInv(s, s.deliveries[d]))
    && (forall d :: 0 <= d < |s.deliveries| && s.deliveries[d].stage.Counted? ==>
          s.subs[s.deliveries[d].sub].pc == Launching(d))
  }

  lemma WgKept(s: State, l: Label)
    requires Inv(s) && Enabled(s, l)
    ensures Step(s, l).wg == Open(Step(s, l).deliveries)
  {
    match l
    case Receive(i) =>
      var ds := Step(s, l).deliveries;
      assert ds[..|ds| - 1] == s.deliveries;
    case Launch(i) =>
      assert SubInv(s, i);
      OpenUpdate(s.deliveries, s.subs[i].pc.d, Step(s, l).deliveries[s.subs[i].pc.d]);
    case FnReturns(d, err) => OpenUpdate(s.deliveries, d, Step(s, l).deliveries[d]);
    case WgDone(d) => OpenUpdate(s.deliveries, d, Step(s, l).deliveries[d]);
    case _ =>
  }

  lemma ConnKept(s: State, l: Label)
    requires Inv(s) && Enabled(s, l)
    ensures ConnInv(Step(s, l).conn)
    ensures |s.conn.gates| <= |Step(s, l).conn.gates| && |s.conn.closers| <= |Step(s, l).conn.closers|
  {
    if l.OnConn? {
      ConnStepKeeps(s.conn, l.c);
    }
  }

  lemma SubKept(s: State, l: Label, j: int)
    requires Inv(s) && Enabled(s, l) && 0 <= j < |s.subs|
    ensures |Step(s, l).subs| == |s.subs| && SubInv(Step(s, l), j)
  {
    assert SubInv(s, j);
    ConnKept(s, l);
    if l.Launch? {
      assert SubInv(s, l.i);
    }
  }

  lemma DeliveryKept(s: State, l: Label, d: int)
    requires Inv(s) && Enabled(s, l) && 0 <= d < |Step(s, l).deliveries|
    ensures var s' := Step(s, l);
            && DeliveryInv(s', s'.deliveries[d])
            && (s'.deliveries[d].stage.Counted? ==> s'.subs[s'.deliveries[d].sub].pc == Launching(d))
  {
    if d < |s.deliveries| {
      assert DeliveryInv(s, s.deliveries[d]);
    }
    if l.Launch? {
      assert SubInv(s, l.i);
    }
  }

  lemma StepInv(s: State, l: Label)
    requires Inv(s) && Enabled(s, l)
    ensures Inv(Step(s, l))
  {
    var s' := Step(s, l);
    WgKept(s, l);
    ConnKept(s, l);
    forall j | 0 <= j < |s'.subs| ensures SubInv(s', j) {
      SubKept(s, l, j);
    }
    forall d | 0 <= d < |s'.deliveries| ensures DeliveryInv(s', s'.deliveries[d])
      && (s'.deliveries[d].stage.Counted? ==> s'.subs[s'.deliveries[d].sub].pc == Launching(d)) {
      DeliveryKept(s, l, d);
    }
  }

  lemma {:induction false} RunInv(s: State, run: seq<Label>)
    requires Inv(s) && Follows(s, run)
    ensures Inv(After(s, run))
    decreases |run|
  {
    if run != [] {
      assert Goes(s, run[0], run[1..]);
      StepInv(s, run[0]);
      RunInv(Step(s, run[0]), run[1..]);
    }
  }

  lemma ReachableInv(s: State)
    requires Reachable(s)
    ensures Inv(s)
  {
    var s0, run :| Init(s0) && Follows(s0, run) && After(s0, run) == s;
    RunInv(s0, run);
  }

  // ---------------------------------------------------------------- theorems about every run

  /** The loop never closes a gate twice; all gates but the current one are closed, and it is open only in an outage. */
  lemma GatesSafe(s: State)
    requires Reachable(s)
    ensures !s.conn.panicked && s.conn.waitConnection < |s.conn.gates| && s.conn.close < |s.conn.closers|
    ensures forall g :: 0 <= g < |s.conn.gates| && !s.conn.gates[g] ==> g == s.conn.waitConnection
    ensures !s.conn.gates[s.conn.waitConnection] <==> Outage(s.conn)
    ensures s.conn.loop.Opening? ==> !ConnStep(s.conn, OpenGate).panicked
  {
    ReachableInv(s);
  }

  /** No subscriber waits on an abandoned gate: its gate is open only in an outage, and then it is the current one. */
  lemma NobodyForgotten(s: State, i: nat)
    requires Reachable(s) && i < |s.subs| && s.subs[i].pc.Waiting?
    ensures Enabled(s, Wake(i)) || (Outage(s.conn) && s.subs[i].pc.gate == s.conn.waitConnection)
  {
    ReachableInv(s);
    assert SubInv(s, i);
  }

  /** As long as nobody calls Close, a subscriber goes on to Consume exactly when it looks at a watched connection. */
  lemma ConsumesConnected(s: State, i: nat)
    requires Reachable(s) && Enabled(s, Recheck(i)) && !Closed(s.conn)
    ensures Step(s, Recheck(i)).subs[i].pc.Consuming? <==> Up(s.conn)
    ensures !Step(s, Recheck(i)).subs[i].pc.Consuming? ==> Step(s, Recheck(i)).subs[i].pc.Checking?
  {
    ReachableInv(s);
  }

  /** As long as the close channel is open, connected says exactly that. */
  lemma ConnectedExactly(s: State)
    requires Reachable(s) && !Closed(s.conn)
    ensures s.conn.connected <==> Up(s.conn)
  {
    ReachableInv(s);
  }

  /** A run without Close leaves the close channel open. */
  lemma {:induction false} OpenWithoutClose(s: State, run: seq<Label>)
    requires Follows(s, run) && s.conn.close < |s.conn.closers| && !Closed(s.conn) && OnConn(CallClose) !in run
    ensures After(s, run).conn.close < |After(s, run).conn.closers| && !Closed(After(s, run).conn)
    decreases |run|
  {
    if run != [] {
      assert Goes(s, run[0], run[1..]);
      OpenWithoutClose(Step(s, run[0]), run[1..]);
    }
  }

  // ---------------------------------------------------------------- what Connect begins

  /** Subscriber i waits on close channel n, or is not at its select. */
  predicate LooksAt(p: Pc, n: nat) {
    p.Waiting? ==> p.closer == n
  }

  lemma {:induction false} StaysOpen(s: State, run: seq<Label>, n: nat)
    requires Follows(s, run) && OnConn(CallClose) !in run
    requires s.conn.close == n < |s.conn.closers| && !s.conn.closers[n]
    ensures After(s, run).conn.close == n && !Closed(After(s, run).conn)
    ensures |After(s, run).subs| == |s.subs|
    ensures forall i :: 0 <= i < |s.subs| && LooksAt(s.subs[i].pc, n) ==> LooksAt(After(s, run).subs[i].pc, n)
    decreases |run|
  {
    if run != [] {
      assert Goes(s, run[0], run[1..]);
      StaysOpen(Step(s, run[0]), run[1..], n);
    }
  }

  /**
   However things went before, from a Connect that finds the connection down until the next Close the
   close channel is open: the loop does not see a shutdown, nor does a subscriber that checks after it.
   */
  lemma ConnectOpens(s: State, run: seq<Label>, s': State)
    requires Reachable(s) && ConnEnabled(s.conn, CallConnect) && !s.conn.connected
    requires Reaches(Step(s, OnConn(CallConnect)), run, s') && OnConn(CallClose) !in run
    ensures !Closed(s'.conn) && !Enabled(s', OnConn(SeeClose)) && |s'.subs| == |s.subs|
    ensures forall i :: 0 <= i < |s.subs| && !s.subs[i].pc.Waiting? ==> !Enabled(s', Shutdown(i))
  {
    var s1 := Step(s, OnConn(CallConnect));
    StaysOpen(s1, run, s1.conn.close);
  }

  /** A Connect whose dial works, up to the loop that watches the connection. */
  function ConnectRun(): seq<Label> {
    [OnConn(CallConnect), OnConn(ConnectDial(true)), OnConn(ConnectSet), OnConn(Spawn), OnConn(Register)]
  }

  lemma ConnectConnects(s: State) returns (s': State)
    requires Reachable(s) && ConnEnabled(s.conn, CallConnect) && !s.conn.connected
    ensures Reaches(s, ConnectRun(), s') && s' == s.(conn := s'.conn)
    ensures s'.conn.connected && s'.conn.loop.Watching? && s'.conn.caller.Idle? && !Closed(s'.conn)
    ensures s'.conn.gates == s.conn.gates && s'.conn.waitConnection == s.conn.waitConnection
  {
    ReachableInv(s);
    var run := ConnectRun();
    s' := Onward(s, run, 0, s);
    s' := Onward(s, run, 1, s');
    s' := Onward(s, run, 2, s');
    s' := Onward(s, run, 3, s');
    s' := Onward(s, run, 4, s');
    assert run[..5] == run;
  }

  /** A drop of the connection, a failed dial and one that works. */
  function OutageRun(): seq<Label> {
    [OnConn(Drop), OnConn(Dial(false)), OnConn(Dial(true)), OnConn(SetConnected), OnConn(OpenGate), OnConn(Register)]
  }

  /** The drop opens a new gate and clears connected; the dial that works undoes both. */
  lemma OutageHeals(s: State) returns (down: State, up: State)
    requires Reachable(s) && s.conn.loop.Watching?
    ensures Reaches(s, OutageRun()[..1], down) && !down.conn.connected && Outage(down.conn)
    ensures down.conn.waitConnection == |s.conn.gates| && !down.conn.gates[down.conn.waitConnection]
    ensures Reaches(s, OutageRun(), up) && up.conn.connected && up.conn.loop.Watching?
    ensures forall g :: 0 <= g < |up.conn.gates| ==> up.conn.gates[g]
  {
    ReachableInv(s);
    var run := OutageRun();
    down := Onward(s, run, 0, s);
    up := Onward(s, run, 1, down);
    up := Onward(s, run, 2, up);
    up := Onward(s, run, 3, up);
    up := Onward(s, run, 4, up);
    up := Onward(s, run, 5, up);
    assert run[..6] == run;
  }

  ghost predicate Reaches(s: State, run: seq<Label>, s': State) {
    Follows(s, run) && After(s, run) == s'
  }

  /** One step further along a run. */
  lemma ReachesOn(s: State, run: seq<Label>, n: nat, s1: State)
    requires n < |run| && (if n == 0 then s1 == s else Reaches(s, run[..n], s1)) && Enabled(s1, run[n])
    ensures Reaches(s, run[..n + 1], Step(s1, run[n]))
  {
    assert run[..n + 1] == run[..n] + [run[n]];
    Cons(s1, run[n], []);
    Concat(s, run[..n], [run[n]]);
  }

  lemma Onward(s: State, run: seq<Label>, n: nat, s1: State) returns (s2: State)
    requires n < |run| && (if n == 0 then s1 == s else Reaches(s, run[..n], s1))
    requires run[n].OnConn? && ConnInv(s1.conn) && ConnEnabled(s1.conn, run[n].c)
    ensures Reaches(s, run[..n + 1], s2) && s2 == s1.(conn := ConnStep(s1.conn, run[n].c)) && ConnInv(s2.conn)
  {
    s2 := Step(s1, run[n]);
    ReachesOn(s, run, n, s1);
    ConnStepKeeps(s1.conn, run[n].c);
  }

  // ---------------------------------------------------------------- what a subscriber that nothing delays does

  /**
   One turn: it ends if it is unsubscribed, waits during an outage, and otherwise goes on to Consume if
   and only if the connection is up.
   */
  lemma TurnsExactly(s: State, i: nat) returns (s1: State, s2: State)
    requires Reachable(s) && i < |s.subs| && s.subs[i].pc.Checking?
    ensures Reaches(s, TurnRun(i)[..1], s1) && |s1.subs| == |s.subs| && s1.conn == s.conn
    ensures s1.subs[i].pc.Finished? <==> !s.subs[i].mayRun
    ensures s.subs[i].mayRun ==> s1.subs[i].pc.Waiting? && (Enabled(s1, Wake(i)) <==> !Outage(s.conn))
                                 && (Enabled(s1, Shutdown(i)) <==> Closed(s.conn))
    ensures s.subs[i].mayRun && !Outage(s.conn) ==>
              && Reaches(s, TurnRun(i), s2) && |s2.subs| == |s.subs|
              && (s2.subs[i].pc.Consuming? <==> s.conn.connected) && (s2.subs[i].pc.Checking? <==> !s.conn.connected)
  {
    ReachableInv(s);
    var run := TurnRun(i);
    s1 := Step(s, run[0]);
    ReachesOn(s, run, 0, s);
    s2 := s1;
    if s.subs[i].mayRun && !Outage(s.conn) {
      ReachesOn(s, run, 1, s1);
      s2 := Step(s1, run[1]);
      ReachesOn(s, run, 2, s2);
      s2 := Step(s2, run[2]);
      assert run[..3] == run;
    }
  }

  function TurnRun(i: nat): seq<Label> {
    [Check(i), Wake(i), Recheck(i)]
  }

  /** One delivery from the receive to the end of its goroutine. */
  function DeliveryRun(i: nat, d: nat, err: bool): seq<Label> {
    [Receive(i), Launch(i), FnReturns(d, err), WgDone(d)]
  }

  /** It is handled once, and acked after a success with AckOnSuccess, nacked after an error, neither with auto-ack. */
  lemma DeliveriesExactly(s: State, i: nat, err: bool) returns (s': State)
    requires Reachable(s) && i < |s.subs| && s.subs[i].pc.Ranging?
    ensures Reaches(s, DeliveryRun(i, |s.deliveries|, err), s')
    ensures var p := s.subs[i];
            s'.deliveries == s.deliveries + [Delivery(i, Done(err), 1,
                                                      if !err && p.ackSuccess && !p.autoAck then 1 else 0,
                                                      if err && !p.autoAck then 1 else 0)]
    ensures s'.wg == s.wg && s'.conn == s.conn && s'.subs == s.subs
  {
    var run := DeliveryRun(i, |s.deliveries|, err);
    ReachesOn(s, run, 0, s);
    var s1 := Step(s, run[0]);
    ReachesOn(s, run, 1, s1);
    var s2 := Step(s1, run[1]);
    ReachesOn(s, run, 2, s2);
    var s3 := Step(s2, run[2]);
    ReachesOn(s, run, 3, s3);
    s' := Step(s3, run[3]);
    assert run[..4] == run;
  }

  // ---------------------------------------------------------------- how long a Close lasts

  /** No loop is alive, no Connect is under way. */
  predicate Quiet(c: Conn) {
    c.loop.Down? && c.caller.Idle?
  }

  /** Without another Connect, the connection never counts as connected again. */
  ghost predicate Lasts(s: State) {
    forall run :: Follows(s, run) && OnConn(CallConnect) !in run ==> !After(s, run).conn.connected
  }

  /** Without another Connect, it can end up counting as connected with nobody watching it. */
  ghost predicate Undone(s: State) {
    exists run :: Follows(s, run) && OnConn(CallConnect) !in run
                  && Quiet(After(s, run).conn) && After(s, run).conn.connected
  }

  lemma {:induction false} StaysDown(s: State, run: seq<Label>)
    requires Follows(s, run) && OnConn(CallConnect) !in run && Quiet(s.conn) && !s.conn.connected
    ensures Quiet(After(s, run).conn) && !After(s, run).conn.connected
    decreases |run|
  {
    if run != [] {
      assert Goes(s, run[0], run[1..]);
      StaysDown(Step(s, run[0]), run[1..]);
    }
  }

  /** A way on from s through steps of the connection, and where it leads. */
  ghost predicate Leads(s: State, run: seq<Label>, c: Conn) {
    Follows(s, run) && OnConn(CallConnect) !in run && After(s, run) == s.(conn := c)
  }

  lemma LeadsOn(s: State, run: seq<Label>, c: Conn, l: ConnLabel)
    requires Leads(s, run, c) && ConnEnabled(c, l) && !l.CallConnect?
    ensures Leads(s, run + [OnConn(l)], ConnStep(c, l))
  {
    Cons(After(s, run), OnConn(l), []);
    Concat(s, run, [OnConn(l)]);
  }

  /** What a closed connection does until its loop sees that; each step brings it nearer. */
  function Homeward(c: Conn): ConnLabel {
    match c.caller
    case FirstDial => ConnectDial(true)
    case FirstDialed => ConnectSet
    case Spawning => Spawn
    case Idle =>
      match c.loop
      case Starting => Register
      case Watching => if c.connected then SeeClose else Drop
      case Dialing => Dial(true)
      case Dialed => SetConnected
      case Opening => OpenGate
      case Down => CallClose
  }

  /** How many of those steps are left. */
  function Distance(c: Conn): nat {
    match c.caller
    case FirstDial => 20
    case FirstDialed => 19
    case Spawning => 18
    case Idle =>
      match c.loop
      case Starting => if c.connected then 2 else 8
      case Watching => if c.connected then 1 else 7
      case Dialing => 6
      case Dialed => 5
      case Opening => if c.connected then 3 else 9
      case Down => 0
  }

  lemma HomewardStep(c: Conn)
    requires ConnInv(c) && Closed(c) && !Quiet(c)
    ensures ConnEnabled(c, Homeward(c)) && !Homeward(c).CallConnect?
    ensures var c' := ConnStep(c, Homeward(c));
            ConnInv(c') && Closed(c') && Distance(c') < Distance(c) && (Quiet(c') ==> c'.connected)
  {
  }

  lemma {:induction false} HomewardFrom(s: State, run: seq<Label>, c: Conn)
    requires Leads(s, run, c) && ConnInv(c) && Closed(c) && (Quiet(c) ==> c.connected)
    ensures Undone(s)
    decreases Distance(c)
  {
    if !Quiet(c) {
      HomewardStep(c);
      LeadsOn(s, run, c, Homeward(c));
      HomewardFrom(s, run + [OnConn(Homeward(c))], ConnStep(c, Homeward(c)));
    }
  }

  /**
   A Close lasts if and only if, when it is called, no reconnect loop is alive, no Connect is under way,
   and connected is false already. Otherwise the loop, which looks at the close channel only while it
   watches a connection, or a Connect under way can set connected again and then go away.
   */
  lemma CloseLastsExactly(s: State)
    requires Reachable(s) && Enabled(s, OnConn(CallClose))
    ensures Lasts(Step(s, OnConn(CallClose))) <==> Quiet(s.conn) && !s.conn.connected
    ensures Undone(Step(s, OnConn(CallClose))) <==> !(Quiet(s.conn) && !s.conn.connected)
    // of the first Close, then, if and only if the connection is quiet
    ensures !Closed(s.conn) && Quiet(s.conn) ==> !s.conn.connected
  {
    var s' := Step(s, OnConn(CallClose));
    ReachableInv(s);
    ConnStepKeeps(s.conn, CallClose);
    if Quiet(s.conn) && !s.conn.connected {
      forall run | Follows(s', run) && OnConn(CallConnect) !in run ensures !After(s', run).conn.connected {
        StaysDown(s', run);
      }
    } else {
      assert Leads(s', [], s'.conn);
      HomewardFrom(s', [], s'.conn);
    }
  }

  /** Every state of a closed connection that is not quiet can come to that. */
  lemma ClosedComesUndone(s: State)
    requires Reachable(s) && Closed(s.conn) && !Quiet(s.conn)
    ensures Undone(s)
  {
    ReachableInv(s);
    assert Leads(s, [], s.conn);
    HomewardFrom(s, [], s.conn);
  }

  /** And there it is stuck: it counts as connected, so Connect and Close do nothing any more. */
  lemma {:induction false} StuckForever(s: State, run: seq<Label>)
    requires Reachable(s) && Follows(s, run) && Quiet(s.conn) && s.conn.connected
    ensures Closed(s.conn) && After(s, run).conn == s.conn
  {
    ReachableInv(s);
    StuckFrom(s, run);
  }

  lemma {:induction false} StuckFrom(s: State, run: seq<Label>)
    requires Follows(s, run) && Quiet(s.conn) && s.conn.connected && Closed(s.conn)
    ensures After(s, run).conn == s.conn
    decreases |run|
  {
    if run != [] {
      assert Goes(s, run[0], run[1..]);
      StuckFrom(Step(s, run[0]), run[1..]);
    }
  }

  // ---------------------------------------------------------------- deliveries

  /** The instant the wait group is at zero, every delivery received so far was handled to its end. */
  lemma NoneInFlight(s: State, d: nat)
    requires Reachable(s) && s.wg == 0 && d < |s.deliveries|
    ensures s.deliveries[d].stage.Done?
  {
    ReachableInv(s);
    OpenZero(s.deliveries, d);
  }

  /** The counter never goes negative: Done is called once for each Add. */
  lemma CounterIsOpen(s: State)
    requires Reachable(s)
    ensures s.wg == Open(s.deliveries) >= 0
  {
    ReachableInv(s);
  }

  /** fn ran once for a finished delivery, which was acked or nacked once exactly when the options ask for it. */
  lemma HandledOnce(s: State, d: nat)
    requires Reachable(s) && d < |s.deliveries| && s.deliveries[d].stage.Done?
    ensures s.deliveries[d].sub < |s.subs|
    ensures var x, p := s.deliveries[d], s.subs[s.deliveries[d].sub];
            && x.fnRuns == 1
            && x.acks <= 1 && x.nacks <= 1
            && (x.acks == 1 <==> !p.autoAck && p.ackSuccess && !x.stage.err)
            && (x.nacks == 1 <==> !p.autoAck && x.stage.err)
            && (p.ackSuccess ==> x.acks + x.nacks == 1)
  {
    ReachableInv(s);
    assert DeliveryInv(s, s.deliveries[d]);
    assert SubInv(s, s.deliveries[d].sub);
  }

  lemma Cons(s: State, l: Label, rest: seq<Label>)
    requires Enabled(s, l) && Follows(Step(s, l), rest)
    ensures Follows(s, [l] + rest) && After(s, [l] + rest) == After(Step(s, l), rest)
  {
    assert ([l] + rest)[1..] == rest;
  }

  lemma {:induction false} Concat(s: State, p: seq<Label>, q: seq<Label>)
    requires Follows(s, p) && Follows(After(s, p), q)
    ensures Follows(s, p + q) && After(s, p + q) == After(After(s, p), q)
    decreases |p|
  {
    if p == [] {
      assert p + q == q;
    } else {
      assert (p + q)[0] == p[0] && (p + q)[1..] == p[1..] + q;
      assert Gone(s, p[0], p[1..]) == After(s, p);
      Concat(Step(s, p[0]), p[1..], q);
    }
  }

  /** A reachable state can take any enabled step of the connection. */
  lemma Next(s: State, c: ConnLabel) returns (s': State)
    requires Reachable(s) && ConnEnabled(s.conn, c)
    ensures Reachable(s') && s'.conn == ConnStep(s.conn, c)
  {
    s' := Step(s, OnConn(c));
    var s0, p :| Init(s0) && Follows(s0, p) && After(s0, p) == s;
    Cons(s, OnConn(c), []);
    Concat(s0, p, [OnConn(c)]);
  }

  lemma FirstConnection() returns (s: State)
    ensures Reachable(s) && s.conn == NewConn().(connected := true, loop := Watching)
  {
    s := State(NewConn(), [], [], 0);
    assert Reachable(s) by { assert Init(s) && Follows(s, []) && After(s, []) == s; }
    s := Next(s, CallConnect);
    s := Next(s, ConnectDial(true));
    s := Next(s, ConnectSet);
    s := Next(s, Spawn);
    s := Next(s, Register);
  }

  /** Such states are reached, also by a Close of a watched connection: the drop it causes may be seen first. */
  lemma CloseWhileWatching()
    ensures exists s :: Reachable(s) && Quiet(s.conn) && s.conn.connected
  {
    var s := FirstConnection();
    s := Next(s, CallClose);
    s := Next(s, Drop);
    s := Next(s, Dial(true));
    s := Next(s, SetConnected);
    s := Next(s, OpenGate);
    s := Next(s, Register);
    s := Next(s, SeeClose);
  }

  // ---------------------------------------------------------------- after Unsubscribe

  /** A subscriber that is past its check may call Consume once more. */
  function Pending(p: Pc): nat {
    if p.Waiting? || p.Rechecking? || p.Consuming? then 1 else 0
  }

  /** How often subscriber i calls Consume in a run. */
  ghost function Consumes(run: seq<Label>, i: nat): nat {
    if run == [] then 0 else (if run[0].Consume? && run[0].i == i then 1 else 0) + Consumes(run[1..], i)
  }

  /** After Unsubscribe a subscriber calls Consume at most once more, and that only if it was past its check. */
  lemma {:induction false} UnsubscribedConsumes(s: State, run: seq<Label>, i: nat)
    requires Follows(s, run) && i < |s.subs| && !s.subs[i].mayRun
    ensures Consumes(run, i) <= Pending(s.subs[i].pc)
    ensures i < |After(s, run).subs| && !After(s, run).subs[i].mayRun
    decreases |run|
  {
    if run != [] {
      assert Goes(s, run[0], run[1..]);
      var s' := Step(s, run[0]);
      assert i < |s'.subs| && !s'.subs[i].mayRun;
      UnsubscribedConsumes(s', run[1..], i);
    }
  }
}
