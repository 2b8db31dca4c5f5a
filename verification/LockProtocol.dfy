/**
 Any number of lockers on one key, as a state machine whose steps interleave freely.

 A command to the server takes two steps, Execute (the server runs it) and Deliver (the reply
 arrives, or is lost). Fail is a locker that gives up on a command the server has not run; the command
 is then under way without anybody waiting for it, and Arrive, at any later time or never, is the
 server running it.
 */
module LockProtocol {
  import opened Std
  import opened LockStore
  import opened LockLedger

  /** Where a locker is inside create, refresh or release. */
  datatype Op =
    | Idle
    | Creating
    | Trying(cand: string, attempts: int)
    | Answered(cand: string, attempts: int, ok: bool)
    | Pausing(cand: string, attempts: int)
    | Refreshing
    | RefreshAnswered(ok: bool)
    | Releasing
    | ReleaseAnswered(ok: bool)

  /** What drives a locker: its own caller (Manual), or one call of Run. Numbers are steps. */
  datatype Phase =
    | Manual
    | Ready
    | Obtaining
    | Handling(start: nat)
    | Unlocking(start: nat, end: nat)
    | ReturnedNil(run: string, start: nat, end: nat)
    | ReturnedErr

  datatype Result = NoResult | Locked(ok: bool, err: bool) | Unlocked(err: bool)

  datatype LockerState = LockerState(ttl: nat, retryCount: nat, token: string, op: Op, phase: Phase,
                           calledAt: nat, result: Result)

  datatype State = State(g: Ledger, lockers: seq<LockerState>, late: multiset<Command>)

  datatype Label =
    | Tick(ms: nat)
    | Arrive(c: Command)
    | Call(i: nat)
    | DrawToken(i: nat, tok: string)
    | Execute(i: nat)
    | Fail(i: nat)
    | Deliver(i: nat, lost: bool)
    | Resume(i: nat, cancelled: bool)
    | CallUnlock(i: nat)
    | HandlerDone(i: nat)
    | TimeOut(i: nat)

  function Actor(l: Label): int {
    if l.Tick? || l.Arrive? then -1 else l.i
  }

  // ---------------------------------------------------------------- steps

  predicate Enabled(s: State, l: Label) {
    l.Tick? || (l.Arrive? && l.c in s.late) ||
    (!l.Arrive? && l.i < |s.lockers| &&
     var k := s.lockers[l.i];
     match l
     case Call(_) => k.op.Idle? && (k.phase.Manual? || k.phase.Ready?)
     case DrawToken(_, tok) => k.op.Creating? && (tok == "" || !s.g.Known(tok))
     case Execute(_) => k.op.Trying? || k.op.Refreshing? || k.op.Releasing?
     case Fail(_) => k.op.Trying? || k.op.Refreshing? || k.op.Releasing?
     case Deliver(_, _) => k.op.Answered? || k.op.RefreshAnswered? || k.op.ReleaseAnswered?
     case Resume(_, cancelled) => k.op.Pausing? && (cancelled ==> k.phase.Manual?)
     case CallUnlock(_) => k.op.Idle? && k.phase.Manual?
     case HandlerDone(_) => k.phase.Handling?
     case TimeOut(_) => k.phase.Handling?)
  }

  /** LockWithContext returns; Obtain and Run look at what it returned. */
  function LockReturns(k: LockerState, ok: bool, err: bool, step: nat): LockerState {
    k.(op := Idle, result := Locked(ok, err),
       phase := if !k.phase.Obtaining? then k.phase else if ok then Handling(step) else ReturnedErr)
  }

  /** release returns: its deferred reset has run, whatever the reply was. */
  function UnlockReturns(k: LockerState, err: bool): LockerState {
    k.(op := Idle, result := Unlocked(err), token := "",
       phase := if !k.phase.Unlocking? then k.phase
                else if err then ReturnedErr
                else ReturnedNil(k.token, k.phase.start, k.phase.end))
  }

  /** A command failed: no reply came back, so the caller sees an error. */
  function NoReply(k: LockerState, step: nat): LockerState {
    if k.op.Releasing? || k.op.ReleaseAnswered? then UnlockReturns(k, true)
    else LockReturns(k, false, true, step)
  }

  /** A reply came back. */
  function Reply(k: LockerState, step: nat): LockerState {
    match k.op
    case Answered(cand, attempts, true) => LockReturns(k.(token := cand), true, false, step)
    case Answered(cand, attempts, false) =>
      if attempts - 1 <= 0 then LockReturns(k, false, false, step)
      else k.(op := Pausing(cand, attempts - 1))
    case RefreshAnswered(true) => LockReturns(k, true, false, step)
    case RefreshAnswered(false) => k.(op := Creating)
    case ReleaseAnswered(ok) => UnlockReturns(k, !ok)
    case _ => k
  }

  /** The locker's own half of a step. */
  function LocalStep(k: LockerState, l: Label, answer: bool, step: nat): LockerState {
    match l
    case Tick(_) => k
    case Arrive(_) => k
    case Call(_) =>
      k.(calledAt := step, phase := if k.phase.Ready? then Obtaining else k.phase,
         op := if k.token != "" then Refreshing else Creating)
    case DrawToken(_, tok) =>
      if tok == "" then LockReturns(k.(token := ""), false, true, step)
      else k.(token := "", op := Trying(tok, k.retryCount + 1))
    case Execute(_) =>
      k.(op := match k.op
               case Trying(cand, attempts) => Answered(cand, attempts, answer)
               case Refreshing => RefreshAnswered(answer)
               case _ => ReleaseAnswered(answer))
    case Fail(_) => NoReply(k, step)
    case Deliver(_, lost) => if lost then NoReply(k, step) else Reply(k, step)
    case Resume(_, cancelled) =>
      if cancelled then LockReturns(k, false, true, step)
      else if k.op.Pausing? then k.(op := Trying(k.op.cand, k.op.attempts)) else k
    case CallUnlock(_) => k.(op := Releasing)
    case HandlerDone(_) =>
      k.(op := Releasing, phase := if k.phase.Handling? then Unlocking(k.phase.start, step) else k.phase)
    case TimeOut(_) => k.(phase := ReturnedErr)
  }

  predicate Sending(k: LockerState) {
    k.op.Trying? || k.op.Refreshing? || k.op.Releasing?
  }

  /** The command a locker is about to send. */
  function CommandOf(k: LockerState): Command
    requires Sending(k)
  {
    match k.op
    case Trying(cand, _) => SetNX(cand, k.ttl)
    case Refreshing => Expire(k.token, k.ttl)
    case Releasing => Delete(k.token)
  }

  function Apply(s: State, l: Label): (s': State)
    requires Enabled(s, l)
    ensures |s'.lockers| == |s.lockers| && s'.g.step == s.g.step + 1
    ensures forall j :: 0 <= j < |s.lockers| && j != Actor(l) ==> s'.lockers[j] == s.lockers[j]
  {
    if l.Tick? then s.(g := Pass(s.g, l.ms))
    else if l.Arrive? then s.(g := Serve(s.g, l.c).0, late := s.late - multiset{l.c})
    else
      var k := s.lockers[l.i];
      var (g, answer) :=
        if l.Execute? then Serve(s.g, CommandOf(k))
        else if l.DrawToken? && l.tok != "" then (DrawFor(s.g, l.i, l.tok), true)
        else (Pass(s.g, 0), false);
      State(g, s.lockers[l.i := LocalStep(k, l, answer, s.g.step)],
            if l.Fail? then s.late + multiset{CommandOf(k)} else s.late)
  }

  ghost predicate Init(s: State) {
    && s.g.store.entry == None && s.g.tokens == map[] && s.late == multiset{}
    && forall k <- s.lockers ::
         && k.ttl >= 1 && k.token == "" && k.op == Idle && (k.phase.Manual? || k.phase.Ready?)
         && k.calledAt == 0 && k.result.NoResult?
  }

  /** The labels of a run, in order; Follows says each was enabled, After is where they lead. */
  ghost predicate Follows(s0: State, run: seq<Label>)
    decreases |run|, 0
  {
    run == [] || Goes(s0, run[0], run[1..])
  }

  ghost predicate Goes(s: State, l: Label, rest: seq<Label>)
    decreases |rest|, 1
  {
    Enabled(s, l) && Follows(Apply(s, l), rest)
  }

  ghost function After(s0: State, run: seq<Label>): State
    requires Follows(s0, run)
    decreases |run|, 0
  {
    if run == [] then s0 else Gone(s0, run[0], run[1..])
  }

  ghost function Gone(s: State, l: Label, rest: seq<Label>): State
    requires Goes(s, l, rest)
    decreases |rest|, 1
  {
    After(Apply(s, l), rest)
  }

  ghost predicate Leads(s: State, run: seq<Label>, s': State) {
    Follows(s, run) && After(s, run) == s'
  }

  ghost predicate Reachable(s: State) {
    exists s0, run :: Init(s0) && Follows(s0, run) && After(s0, run) == s
  }

  // ---------------------------------------------------------------- invariant

  /** Token t was drawn by locker i. */
  ghost predicate Mine(g: Ledger, i: int, t: string) {
    g.Known(t) && g.tokens[t].owner == i
  }

  /** The token a create call is trying: drawn in this call and never granted. */
  ghost predicate Candidate(g: Ledger, i: int, k: LockerState, cand: string, attempts: int) {
    && k.token == "" && Mine(g, i, cand) && !g.Granted(cand) && g.tokens[cand].drawn >= k.calledAt
    && 1 <= attempts <= k.retryCount + 1
  }

  ghost predicate OpInv(g: Ledger, i: int, k: LockerState) {
    match k.op
    case Idle => true
    case Creating => true
    case Trying(cand, attempts) => Candidate(g, i, k, cand, attempts)
    case Pausing(cand, attempts) => Candidate(g, i, k, cand, attempts)
    case Answered(cand, attempts, ok) =>
      if ok then
        && k.token == "" && Mine(g, i, cand) && g.IsHeld(cand) && 1 <= attempts <= k.retryCount + 1
        && g.tokens[cand].drawn >= k.calledAt && g.tokens[cand].fate.renewed >= k.calledAt
      else Candidate(g, i, k, cand, attempts)
    case Refreshing => k.token != ""
    case RefreshAnswered(ok) =>
      k.token != "" && (ok ==> g.IsHeld(k.token) && g.tokens[k.token].fate.renewed >= k.calledAt)
    case Releasing => true
    case ReleaseAnswered(ok) => ok ==> g.IsReleased(k.token)
  }

  ghost predicate PhaseInv(g: Ledger, i: int, k: LockerState) {
    match k.phase
    case Manual => true
    case Ready => k.op.Idle? && k.token == ""
    case Obtaining => k.op.Creating? || k.op.Trying? || k.op.Answered? || k.op.Pausing?
    case Handling(start) =>
      k.op.Idle? && g.IsHeld(k.token) && g.GrantedAt(k.token) < start < g.step
    case Unlocking(start, end) =>
      && (k.op.Releasing? || k.op.ReleaseAnswered?)
      && g.Granted(k.token) && g.GrantedAt(k.token) < start < end < g.step
      && (g.IsReleased(k.token) ==> end < g.tokens[k.token].fate.end)
    case ReturnedNil(t, start, end) =>
      k.op.Idle? && Mine(g, i, t) && g.IsReleased(t) && g.GrantedAt(t) < start < end < g.tokens[t].fate.end
    case ReturnedErr => k.op.Idle?
  }

  ghost predicate LockerInv(g: Ledger, i: int, k: LockerState) {
    && k.ttl >= 1 && k.calledAt <= g.step
    && (k.token != "" ==> Mine(g, i, k.token) && g.Granted(k.token))
    && (k.token != "" && !k.op.ReleaseAnswered? ==> g.IsHeld(k.token))
    && OpInv(g, i, k) && PhaseInv(g, i, k)
  }

  /** t is the locker's token, or the one it is trying. */
  predicate Mentions(k: LockerState, t: string) {
    k.token == t || ((k.op.Trying? || k.op.Pausing? || k.op.Answered?) && k.op.cand == t)
  }

  /**
   A command that nobody waits for: a SETNX is the only one of its token, which was never granted; the
   token of a SETNX or a deletion is forgotten by the locker that drew it.
   */
  ghost predicate LateInv(s: State, c: Command) {
    (c.Delete? && c.t == "") ||
    (s.g.Known(c.t) &&
     var i := s.g.tokens[c.t].owner;
     && i < |s.lockers|
     && (c.Expire? || !Mentions(s.lockers[i], c.t))
     && (if c.SetNX? then !s.g.Granted(c.t) && s.late[c] == 1 else s.g.Granted(c.t))
     && (c.Delete? || c.ttl == s.lockers[i].ttl))
  }

  ghost predicate LockersInv(s: State) {
    forall i :: 0 <= i < |s.lockers| ==> LockerInv(s.g, i, s.lockers[i])
  }

  ghost predicate Inv(s: State) {
    LedgerInv(s.g) && LockersInv(s) && forall c <- s.late :: LateInv(s, c)
  }

  // ---------------------------------------------------------------- every step keeps the invariant

  lemma InitInv(s: State)
    requires Init(s)
    ensures Inv(s)
  {
    forall i | 0 <= i < |s.lockers| ensures LockerInv(s.g, i, s.lockers[i]) {
      assert s.lockers[i] in s.lockers;
    }
  }

  /** A record after a step that is not its locker's: renewed at most, or else of a token that is forgotten. */
  ghost predicate FateKept(f: Fate, f': Fate, step: nat, mentioned: bool) {
    match f
    case Unused => mentioned ==> f' == f
    case Held(at, _, renewed) =>
      if f'.Held? then f'.at == at && (f'.renewed == renewed || f'.renewed == step)
      else !mentioned && f'.Released? && f'.at == at
    case Released(_, _) => f' == f
  }

  /** What the steps of the server and of other lockers do to the tokens of locker i. */
  ghost predicate KeptFor(g: Ledger, g': Ledger, i: int, k: LockerState) {
    && g.step <= g'.step && (g.Known("") == g'.Known(""))
    && forall t :: Mine(g, i, t) ==>
         Mine(g', i, t) && g'.tokens[t].drawn == g.tokens[t].drawn
         && FateKept(g.tokens[t].fate, g'.tokens[t].fate, g.step, Mentions(k, t))
  }

  lemma OthersKeepMine(s: State, l: Label, i: int)
    requires Inv(s) && Enabled(s, l) && 0 <= i < |s.lockers| && Actor(l) != i && !l.Arrive?
    ensures KeptFor(s.g, Apply(s, l).g, i, s.lockers[i])
  {
    if !l.Tick? {
      assert LockerInv(s.g, l.i, s.lockers[l.i]);
    }
  }

  /** A late command grants or frees only tokens that locker i has forgotten. */
  lemma ArrivedKeepsMine(s: State, c: Command, i: int)
    requires Inv(s) && c in s.late && 0 <= i < |s.lockers|
    ensures KeptFor(s.g, Serve(s.g, c).0, i, s.lockers[i])
  {
    assert LateInv(s, c);
    var g' := Serve(s.g, c).0;
    assert forall t :: Mine(s.g, i, t) && t != c.t ==> g'.tokens[t] == s.g.tokens[t];
  }

  lemma KeptForKeeps(g: Ledger, g': Ledger, i: int, k: LockerState)
    requires HistoryInv(g) && KeptFor(g, g', i, k) && LockerInv(g, i, k)
    ensures LockerInv(g', i, k)
  {
  }

  lemma LedgerKept(s: State, l: Label)
    requires Inv(s) && Enabled(s, l)
    ensures LedgerInv(Apply(s, l).g)
  {
    if l.Tick? {
      PassKeeps(s.g, l.ms);
    } else if l.Arrive? {
      assert LateInv(s, l.c);
      ServeKeeps(s.g, l.c);
    } else if l.Execute? {
      assert LockerInv(s.g, l.i, s.lockers[l.i]);
      ServeKeeps(s.g, CommandOf(s.lockers[l.i]));
    } else if l.DrawToken? && l.tok != "" {
      DrawKeeps(s.g, l.i, l.tok);
    } else {
      PassKeeps(s.g, 0);
    }
  }

  lemma ServedKept(s: State, l: Label)
    requires Inv(s) && Enabled(s, l) && l.Execute?
    ensures LockerInv(Apply(s, l).g, l.i, Apply(s, l).lockers[l.i])
  {
    var k := s.lockers[l.i];
    assert LockerInv(s.g, l.i, k);
    match CommandOf(k)
    case SetNX(t, ttl) =>
    case Expire(t, ttl) =>
    case Delete(t) =>
  }

  lemma NoReplyKept(g: Ledger, i: int, k: LockerState)
    requires HistoryInv(g) && LockerInv(g, i, k)
    requires Sending(k) || k.op.Answered? || k.op.RefreshAnswered? || k.op.ReleaseAnswered?
    ensures LockerInv(Pass(g, 0), i, NoReply(k, g.step))
  {
  }

  lemma ReplyKept(g: Ledger, i: int, k: LockerState)
    requires HistoryInv(g) && LockerInv(g, i, k)
    requires k.op.Answered? || k.op.RefreshAnswered? || k.op.ReleaseAnswered?
    ensures LockerInv(Pass(g, 0), i, Reply(k, g.step))
  {
  }

  /** The remaining steps of a locker: calls begin, a pause ends, Run looks at its handler. */
  lemma LocalKept(s: State, l: Label)
    requires Inv(s) && Enabled(s, l)
    requires l.Call? || l.Resume? || l.CallUnlock? || l.HandlerDone? || l.TimeOut?
    ensures LockerInv(Apply(s, l).g, l.i, Apply(s, l).lockers[l.i])
  {
    assert LockerInv(s.g, l.i, s.lockers[l.i]);
  }

  lemma DrawnKept(s: State, l: Label)
    requires Inv(s) && Enabled(s, l) && l.DrawToken?
    ensures LockerInv(Apply(s, l).g, l.i, Apply(s, l).lockers[l.i])
  {
    assert LockerInv(s.g, l.i, s.lockers[l.i]);
  }

  lemma {:induction false} LockerKept(s: State, l: Label, i: int)
    requires Inv(s) && Enabled(s, l) && 0 <= i < |s.lockers|
    ensures LockerInv(Apply(s, l).g, i, Apply(s, l).lockers[i])
  {
    assert LockerInv(s.g, i, s.lockers[i]);
    if i != Actor(l) {
      if l.Arrive? {
        ArrivedKeepsMine(s, l.c, i);
      } else {
        OthersKeepMine(s, l, i);
      }
      KeptForKeeps(s.g, Apply(s, l).g, i, s.lockers[i]);
    } else if l.Execute? {
      ServedKept(s, l);
    } else if l.DrawToken? {
      DrawnKept(s, l);
    } else if l.Call? || l.Resume? || l.CallUnlock? || l.HandlerDone? || l.TimeOut? {
      LocalKept(s, l);
    } else if l.Fail? || l.lost {
      NoReplyKept(s.g, i, s.lockers[i]);
    } else {
      ReplyKept(s.g, i, s.lockers[i]);
    }
  }

  lemma LateAfterArrival(s: State, a: Command, c: Command)
    requires Inv(s) && a in s.late && c in s.late - multiset{a}
    ensures LateInv(Apply(s, Arrive(a)), c)
  {
    assert LateInv(s, c) && LateInv(s, a);
  }

  /** A command the server runs for a locker that waits for it concerns no late SETNX. */
  lemma LateAfterExecute(s: State, i: nat, c: Command)
    requires Inv(s) && Enabled(s, Execute(i)) && c in s.late
    ensures LateInv(Apply(s, Execute(i)), c)
  {
    assert LateInv(s, c) && LockerInv(s.g, i, s.lockers[i]);
    match CommandOf(s.lockers[i])
    case SetNX(t, ttl) =>
    case Expire(t, ttl) =>
    case Delete(t) =>
  }

  /** The other steps of a locker neither grant a token nor bring a forgotten one back. */
  lemma LateAfterStep(s: State, l: Label, c: Command)
    requires Inv(s) && Enabled(s, l) && c in s.late
    requires !l.Arrive? && !l.Tick? && !l.Fail? && !l.Execute?
    ensures LateInv(Apply(s, l), c)
  {
    assert LateInv(s, c) && LockerInv(s.g, l.i, s.lockers[l.i]);
  }

  /** Giving up on a command adds that command. */
  lemma LateAfterFail(s: State, i: nat, c: Command)
    requires Inv(s) && Enabled(s, Fail(i)) && c in Apply(s, Fail(i)).late
    ensures LateInv(Apply(s, Fail(i)), c)
  {
    assert LockerInv(s.g, i, s.lockers[i]);
    if c in s.late {
      assert LateInv(s, c);
    }
  }

  lemma {:induction false} LateKept(s: State, l: Label, c: Command)
    requires Inv(s) && Enabled(s, l) && c in Apply(s, l).late
    ensures LateInv(Apply(s, l), c)
  {
    if l.Arrive? {
      LateAfterArrival(s, l.c, c);
    } else if l.Fail? {
      LateAfterFail(s, l.i, c);
    } else if l.Execute? {
      LateAfterExecute(s, l.i, c);
    } else if l.Tick? {
      assert LateInv(s, c);
    } else {
      LateAfterStep(s, l, c);
    }
  }

  lemma {:induction false} StepInv(s: State, l: Label)
    requires Inv(s) && Enabled(s, l)
    ensures Inv(Apply(s, l))
  {
    var s' := Apply(s, l);
    LedgerKept(s, l);
    forall i | 0 <= i < |s'.lockers| ensures LockerInv(s'.g, i, s'.lockers[i]) {
      LockerKept(s, l, i);
    }
    forall c | c in s'.late ensures LateInv(s', c) {
      LateKept(s, l, c);
    }
  }

  lemma {:induction false} RunInv(s: State, run: seq<Label>)
    requires Inv(s) && Follows(s, run)
    ensures Inv(After(s, run))
    decreases |run|
  {
    if run != [] {
      assert Goes(s, run[0], run[1..]);
      StepInv(s, run[0]);
      RunInv(Apply(s, run[0]), run[1..]);
    }
  }

  lemma ReachableInv(s: State)
    requires Reachable(s)
    ensures Inv(s)
  {
    var s0, run :| Init(s0) && Follows(s0, run) && After(s0, run) == s;
    InitInv(s0);
    RunInv(s0, run);
  }
}
