/** Options of a lock, and the defaults normalize fills in. Durations are in nanoseconds. */
module LockOptions {
  const MILLISECOND := 1_000_000
  const SECOND := 1_000_000_000

  /** The milliseconds a lock is asked for, after the default of five seconds. */
  function TtlOf(lockTimeout: int): nat {
    if lockTimeout < 1 then 5_000 else lockTimeout / MILLISECOND
  }

  class Options {
    var lockTimeout: int
    var retryCount: int
    var retryDelay: int

    constructor (lockTimeout: int, retryCount: int, retryDelay: int)
      ensures this.lockTimeout == lockTimeout && this.retryCount == retryCount && this.retryDelay == retryDelay
    {
      this.lockTimeout, this.retryCount, this.retryDelay := lockTimeout, retryCount, retryDelay;
    }

    /** Afterwards no field is out of range, and fields that were in range kept their value. */
    method Normalize()
      modifies this
      ensures lockTimeout >= 1 && retryCount >= 0 && retryDelay >= 1
      ensures old(lockTimeout) >= 1 ==> lockTimeout == old(lockTimeout)
      ensures old(lockTimeout) < 1 ==> lockTimeout == 5 * SECOND
      ensures retryCount == if old(retryCount) >= 0 then old(retryCount) else 0
      ensures old(retryDelay) >= 1 ==> retryDelay == old(retryDelay)
      ensures old(retryDelay) < 1 ==> retryDelay == 100 * MILLISECOND
    {
      if lockTimeout < 1 {
        lockTimeout := 5 * SECOND;
      }
      if retryCount < 0 {
        retryCount := 0;
      }
      if retryDelay < 1 {
        retryDelay := 100 * MILLISECOND;
      }
    }
  }
}

/**
 The Locker of the source, statement by statement, in a world where between any two of its steps the
 other lockers and the clock may take any number of steps of the protocol. Every execution is thus a
 run of LockProtocol, and the theorems about runs hold for it.
 */
module LockerObject {
  import opened Std
  import opened LockStore
  import opened LockLedger
  import opened LockProtocol
  import opened LockTheorems
  import opened LockOptions

  /** The labels of one actor, in order. */
  ghost function Own(log: seq<Label>, i: int): seq<Label> {
    if log == [] then []
    else
      var l := log[|log| - 1];
      Own(log[..|log| - 1], i) + if Actor(l) == i then [l] else []
  }

  predicate IsCommand(l: Label) {
    l.Execute? || l.Fail?
  }

  /** How many commands a list of labels sends, and how often it waits for the retry delay. */
  ghost function Commands(ls: seq<Label>): nat {
    if ls == [] then 0 else Commands(ls[..|ls| - 1]) + if IsCommand(ls[|ls| - 1]) then 1 else 0
  }

  ghost function Waits(ls: seq<Label>): nat {
    if ls == [] then 0 else Waits(ls[..|ls| - 1]) + if ls[|ls| - 1].Resume? then 1 else 0
  }

  lemma Append(ls: seq<Label>, l: Label, i: int)
    ensures Own(ls + [l], i) == if Actor(l) == i then Own(ls, i) + [l] else Own(ls, i)
    ensures Commands(ls + [l]) == Commands(ls) + if IsCommand(l) then 1 else 0
    ensures Waits(ls + [l]) == Waits(ls) + if l.Resume? then 1 else 0
  {
    assert (ls + [l])[..|ls|] == ls;
  }

  class World {
    var s: State
    ghost const start: State
    ghost var log: seq<Label>

    ghost predicate Valid()
      reads this
    {
      Init(start) && Follows(start, log) && After(start, log) == s
    }

    /** The locker at i, what it has sent so far and how often it has waited. */
    ghost function At(i: nat): LockerState
      requires i < |s.lockers|
      reads this
    {
      s.lockers[i]
    }

    ghost function Sent(i: nat): nat
      reads this
    {
      Commands(Own(log, i))
    }

    ghost function Waited(i: nat): nat
      reads this
    {
      Waits(Own(log, i))
    }

    constructor (s0: State)
      requires Init(s0)
      ensures Valid() && s == s0 && log == []
    {
      s, start, log := s0, s0, [];
    }

    /** Any enabled step of the protocol, seen from locker i. */
    method Step(l: Label, i: nat)
      requires Valid() && Enabled(s, l)
      modifies this
      ensures Valid() && s == Apply(old(s), l) && log == old(log) + [l]
      ensures Sent(i) == old(Sent(i)) + if Actor(l) == i && IsCommand(l) then 1 else 0
      ensures Waited(i) == old(Waited(i)) + if Actor(l) == i && l.Resume? then 1 else 0
    {
      Cons(s, l, []);
      Concat(start, log, [l]);
      Append(log, l, i);
      Append(Own(log, i), l, i);
      s := Apply(s, l);
      log := log + [l];
    }

    /** A step of locker i itself; answer is what the server answers when the step is a command. */
    method Act(l: Label, i: nat) returns (answer: bool, ghost at: nat)
      requires Valid() && Enabled(s, l) && Actor(l) == i
      modifies this
      ensures Valid() && i < |s.lockers|
      ensures At(i) == LocalStep(old(At(i)), l, answer, at) && at == old(s.g.step)
      ensures Sent(i) == old(Sent(i)) + if IsCommand(l) then 1 else 0
      ensures Waited(i) == old(Waited(i)) + if l.Resume? then 1 else 0
      ensures l.Execute? ==> answer == Serve(old(s.g), CommandOf(old(At(i)))).1
    {
      at := s.g.step;
      if l.Execute? {
        answer := Serve(s.g, CommandOf(s.lockers[i])).1;
      } else {
        answer := l.DrawToken? && l.tok != "";
      }
      Step(l, i);
    }

    /** Any number of steps of the clock and of lockers other than i. */
    method Others(i: nat)
      requires Valid() && i < |s.lockers|
      modifies this
      ensures Valid() && |s.lockers| == old(|s.lockers|) && At(i) == old(At(i))
      ensures Sent(i) == old(Sent(i)) && Waited(i) == old(Waited(i))
      ensures s.g.step >= old(s.g.step)
    {
      var n: nat := *;
      while n > 0
        invariant Valid() && |s.lockers| == old(|s.lockers|) && At(i) == old(At(i))
        invariant Sent(i) == old(Sent(i)) && Waited(i) == old(Waited(i))
        invariant s.g.step >= old(s.g.step)
      {
        var l: Label := *;
        if Enabled(s, l) && Actor(l) != i {
          Step(l, i);
        }
        n := n - 1;
      }
    }
  }

  datatype Answer = Yes | No | Error

  /** What became of a command: given up before the server ran it, or run in state at, its reply arriving or lost. */
  datatype Trip = GivenUp | Ran(at: State, answer: bool, lost: bool)

  /** What the locker sees of it. */
  function Seen(x: Trip): Answer {
    if x.GivenUp? || x.lost then Error else if x.answer then Yes else No
  }

  /** The answer is the server's, to the command of locker i, in a reachable state. */
  ghost predicate WasSent(x: Trip, i: nat, k: LockerState)
    requires Sending(k)
  {
    x.Ran? ==>
      Reachable(x.at) && i < |x.at.lockers| && x.at.lockers[i] == k && x.answer == Serve(x.at.g, CommandOf(k)).1
  }

  /** A refresh or a release of token t with that outcome: the server said yes exactly if the lease still ran. */
  ghost predicate Asked(x: Trip, t: string, ttl: nat, refresh: bool) {
    x.Ran? ==> Reachable(x.at) && var c := if refresh then Expire(t, ttl) else Delete(t);
               LeaseDecides(x.at.g, c) && x.answer == Serve(x.at.g, c).1
  }

  lemma SentAsked(x: Trip, i: nat, k: LockerState)
    requires (k.op.Refreshing? || k.op.Releasing?) && WasSent(x, i, k)
    ensures Asked(x, k.token, k.ttl, k.op.Refreshing?)
  {
    if x.Ran? {
      AnswersExactly(x.at, i);
    }
  }

  predicate Waiting(k: LockerState) {
    k.op.Answered? || k.op.RefreshAnswered? || k.op.ReleaseAnswered?
  }

  /** A lost reply and a request that did not get through look the same. */
  lemma LostIsFailed(k: LockerState, i: nat, answer: bool, step: nat, at: nat)
    requires Sending(k)
    ensures var k' := LocalStep(k, LockProtocol.Execute(i), answer, step);
            Waiting(k') && NoReply(k', at) == NoReply(k, at)
  {
  }

  /** A locker that tries token t, with so many attempts left, and what the outcome of a SETNX makes of it. */
  function Trial(k: LockerState, t: string, attempts: int): LockerState {
    k.(token := "", op := Trying(t, attempts))
  }

  function AfterTrial(k: LockerState, t: string, attempts: int, outcome: Answer, at: nat): LockerState {
    match outcome
    case Error => LockReturns(k.(token := ""), false, true, at)
    case Yes => LockReturns(k.(token := t), true, false, at)
    case No =>
      if attempts <= 1 then LockReturns(k.(token := ""), false, false, at)
      else k.(token := "", op := Pausing(t, attempts - 1))
  }

  lemma TrialOutcome(k: LockerState, t: string, attempts: int, i: nat, answer: bool, step: nat, at: nat)
    ensures NoReply(Trial(k, t, attempts), at) == AfterTrial(k, t, attempts, Error, at)
    ensures Reply(LocalStep(Trial(k, t, attempts), LockProtocol.Execute(i), answer, step), at) ==
            AfterTrial(k, t, attempts, if answer then Yes else No, at)
  {
  }

  /** One pause between two attempts, and the one in which the context ended the call. */
  function Pauses(replies: seq<Answer>, cancelled: bool): nat {
    if replies == [] then 0 else |replies| - 1 + if cancelled then 1 else 0
  }

  /**
   How the attempts of a create end: after a yes; with an error after a failed command, or when the
   context ends a pause; and without the lock only after as many noes as there are attempts.
   */
  predicate CreateEnds(replies: seq<Answer>, attempts: nat, cancelled: bool, ok: bool, err: bool)
    requires replies != []
  {
    var last := replies[|replies| - 1];
    && |replies| <= attempts && (forall j :: 0 <= j < |replies| - 1 ==> replies[j].No?)
    && (ok <==> last.Yes?)
    && (err <==> last.Error? || cancelled)
    && (cancelled ==> last.No? && |replies| < attempts)
    && (!ok && !err ==> last.No? && |replies| == attempts)
  }

  class Locker {
    const id: nat
    const ttl: nat
    const retryCount: nat
    var token: string

    ghost predicate Valid(w: World)
      reads this, w
    {
      && w.Valid() && id < |w.s.lockers|
      && w.At(id).token == token && w.At(id).ttl == ttl && w.At(id).retryCount == retryCount
    }

    /** New: a copy of the options, normalized, and no token. */
    constructor (w: World, id: nat, opts: Options?)
      requires w.Valid() && id < |w.s.lockers| && w.At(id).token == ""
      requires w.At(id).ttl == TtlOf(if opts == null then 0 else opts.lockTimeout)
      requires w.At(id).retryCount == if opts == null || opts.retryCount < 0 then 0 else opts.retryCount
      ensures Valid(w) && this.id == id && token == ""
      ensures opts != null ==> unchanged(opts)
      ensures opts == null || opts.lockTimeout < 1 ==> ttl == 5_000
      ensures opts != null && opts.lockTimeout >= 1 ==> ttl == opts.lockTimeout / 1_000_000
      ensures opts == null || opts.retryCount < 0 ==> retryCount == 0
      ensures opts != null && opts.retryCount >= 0 ==> retryCount == opts.retryCount
    {
      var o := new Options(0, 0, 0);
      if opts != null {
        o := new Options(opts.lockTimeout, opts.retryCount, opts.retryDelay);
      }
      o.Normalize();
      this.id := id;
      ttl := o.lockTimeout / MILLISECOND;
      retryCount := o.retryCount;
      token := "";
    }

    /**
     True: the locker's token was granted to it and not released, and the server has the lease until it
     runs out. False: every grant it ever got is released or forgotten. The mutex keeps it out of calls.
     */
    method IsLocked(ghost w: World) returns (locked: bool)
      requires Valid(w) && w.At(id).op.Idle?
      ensures locked ==> Mine(w.s.g, id, token) && w.s.g.IsHeld(token)
      ensures locked ==> (w.s.g.store.Holds(token) <==> w.s.g.store.now < w.s.g.tokens[token].fate.until)
      ensures !locked ==> forall t :: Mine(w.s.g, id, t) && w.s.g.IsHeld(t) ==> Orphan(w.s, t)
    {
      assert Reachable(w.s);
      if token != "" {
        LockedHolds(w.s, id);
      } else {
        forall t | Mine(w.s.g, id, t) && w.s.g.IsHeld(t) ensures Orphan(w.s, t) {
          UnlockedForgets(w.s, id, t);
        }
      }
      locked := token != "";
    }

    /** The reply to a command arrives, or is lost. */
    method Receive(w: World) returns (lost: bool, ghost at: nat)
      requires w.Valid() && id < |w.s.lockers| && Waiting(w.At(id))
      modifies w
      ensures w.Valid() && id < |w.s.lockers|
      ensures w.Sent(id) == old(w.Sent(id)) && w.Waited(id) == old(w.Waited(id))
      ensures w.At(id) == if lost then NoReply(old(w.At(id)), at) else Reply(old(w.At(id)), at)
    {
      w.Others(id);
      lost := *;
      var _, at' := w.Act(Deliver(id, lost), id);
      at := at';
    }

    /**
     One command and its reply: the locker may give up on the command, the reply may be lost. It then
     stands where the protocol says; `at` is the step in which it learned the outcome.
     */
    method Send(w: World) returns (answer: bool, err: bool, ghost x: Trip, ghost at: nat)
      requires w.Valid() && id < |w.s.lockers| && Sending(w.At(id))
      modifies w
      ensures w.Valid() && id < |w.s.lockers|
      ensures w.Sent(id) == old(w.Sent(id)) + 1 && w.Waited(id) == old(w.Waited(id))
      ensures WasSent(x, id, old(w.At(id)))
      ensures (err <==> Seen(x).Error?) && (!err ==> answer == x.answer)
      ensures err ==> w.At(id) == NoReply(old(w.At(id)), at)
      ensures !err ==> w.At(id) == Reply(LocalStep(old(w.At(id)), LockProtocol.Execute(id), answer, x.at.g.step), at)
    {
      w.Others(id);
      ghost var k := w.At(id);
      var failed: bool := *;
      if failed {
        answer, at := w.Act(Fail(id), id);
        return false, true, GivenUp, at;
      }
      ghost var st := w.s;
      ghost var step;
      assert Reachable(st);
      answer, step := w.Act(LockProtocol.Execute(id), id);
      forall a: nat ensures Waiting(w.At(id)) && NoReply(w.At(id), a) == NoReply(k, a) {
        LostIsFailed(k, id, answer, step, a);
      }
      var lost, at' := Receive(w);
      at, err, x := at', lost, Ran(st, answer, lost);
    }

    /** obtain: one SETNX of the candidate token. */
    method Obtain(w: World, t: string, ghost k: LockerState, ghost attempts: int)
      returns (ok: bool, err: bool, ghost at: nat)
      requires w.Valid() && id < |w.s.lockers| && w.At(id) == Trial(k, t, attempts)
      modifies w
      ensures w.Valid() && id < |w.s.lockers|
      ensures w.Sent(id) == old(w.Sent(id)) + 1 && w.Waited(id) == old(w.Waited(id))
      ensures ok ==> !err
      ensures w.At(id) == AfterTrial(k, t, attempts, if err then Error else if ok then Yes else No, at)
    {
      var answer, failed, x, at' := Send(w);
      TrialOutcome(k, t, attempts, id, answer, if x.Ran? then x.at.g.step else 0, at');
      return answer && !failed, failed, at';
    }

    /** Wait for the retry delay, or for the context when the caller gave one. */
    method Pause(w: World, ctx: bool, t: string, ghost k: LockerState, ghost attempts: int)
      returns (cancelled: bool, ghost at: nat)
      requires w.Valid() && id < |w.s.lockers| && w.At(id) == k.(token := "", op := Pausing(t, attempts))
      requires ctx ==> k.phase.Manual?
      modifies w
      ensures w.Valid() && id < |w.s.lockers|
      ensures w.Sent(id) == old(w.Sent(id)) && w.Waited(id) == old(w.Waited(id)) + 1 && (cancelled ==> ctx)
      ensures w.At(id) == if cancelled then LockReturns(k.(token := ""), false, true, at) else Trial(k, t, attempts)
    {
      w.Others(id);
      var done: bool := *;
      cancelled := done && ctx;
      var _, at' := w.Act(Resume(id, cancelled), id);
      at := at';
    }

    /**
     create: at most retryCount + 1 SETNX calls with one fresh token, waiting in between; true exactly
     when the last of them reported success, and the token field is empty otherwise.
     */
    method Create(w: World, ctx: bool)
      returns (ok: bool, err: bool, ghost replies: seq<Answer>, ghost cancelled: bool, ghost at: nat)
      requires Valid(w) && w.At(id).op.Creating? && (ctx ==> w.At(id).phase.Manual?)
      modifies this, w
      ensures Valid(w) && w.At(id) == LockReturns(old(w.At(id)).(token := token), ok, err, at)
      ensures w.Sent(id) == old(w.Sent(id)) + |replies|
      ensures w.Waited(id) == old(w.Waited(id)) + Pauses(replies, cancelled) <= old(w.Waited(id)) + retryCount
      ensures replies == [] ==> err && !ok && !cancelled
      ensures replies != [] ==> CreateEnds(replies, retryCount + 1, cancelled, ok, err) && (cancelled ==> ctx)
      ensures ok ==> !err
      ensures ok <==> token != ""
    {
      ghost var k := w.At(id);
      token := "";
      var t, at0 := DrawFresh(w);
      if t == "" {
        return false, true, [], false, at0;
      }
      ok, err, replies, cancelled, at := TryToken(w, ctx, t, k);
      if ok {
        token := t;
      }
    }

    /** The loop of create. */
    method TryToken(w: World, ctx: bool, t: string, ghost k: LockerState)
      returns (ok: bool, err: bool, ghost replies: seq<Answer>, ghost cancelled: bool, ghost at: nat)
      requires w.Valid() && id < |w.s.lockers| && w.At(id) == Trial(k, t, retryCount + 1)
      requires ctx ==> k.phase.Manual?
      modifies w
      ensures w.Valid() && id < |w.s.lockers|
      ensures w.At(id) == LockReturns(k.(token := if ok then t else ""), ok, err, at)
      ensures replies != [] && w.Sent(id) == old(w.Sent(id)) + |replies|
      ensures w.Waited(id) == old(w.Waited(id)) + Pauses(replies, cancelled)
      ensures CreateEnds(replies, retryCount + 1, cancelled, ok, err) && (cancelled ==> ctx)
    {
      replies, cancelled := [], false;
      var attempts := retryCount + 1;
      while true
        invariant w.Valid() && id < |w.s.lockers|
        invariant w.At(id) == Trial(k, t, attempts)
        invariant 1 <= attempts && attempts + |replies| == retryCount + 1
        invariant w.Sent(id) == old(w.Sent(id)) + |replies|
        invariant w.Waited(id) == old(w.Waited(id)) + |replies|
        invariant forall j :: 0 <= j < |replies| ==> replies[j].No?
        invariant !cancelled
        decreases attempts
      {
        ok, err, at := Obtain(w, t, k, attempts);
        replies := replies + [if err then Error else if ok then Yes else No];
        if err || ok {
          return;
        }
        attempts := attempts - 1;
        if attempts <= 0 {
          return;
        }
        err, at := Pause(w, ctx, t, k, attempts);
        if err {
          cancelled := true;
          return;
        }
      }
    }

    /** reset and randomToken: a token nobody drew before, or "" when the source of randomness fails. */
    method DrawFresh(w: World) returns (t: string, ghost at: nat)
      requires w.Valid() && id < |w.s.lockers| && w.At(id).op.Creating?
      modifies w
      ensures w.Valid() && id < |w.s.lockers|
      ensures w.Sent(id) == old(w.Sent(id)) && w.Waited(id) == old(w.Waited(id))
      ensures w.At(id) == if t == "" then LockReturns(old(w.At(id)).(token := ""), false, true, at)
                          else Trial(old(w.At(id)), t, old(w.At(id)).retryCount + 1)
    {
      w.Others(id);
      t := *;
      if w.s.g.Known(t) {
        t := "";
      }
      var _, at' := w.Act(DrawToken(id, t), id);
      at := at';
    }

    /**
     refresh: true with the same token when the lease was still ours, an error that keeps the token when
     the command failed, and otherwise the outcome of a new create, with a token only if that is true.
     */
    method Refresh(w: World, ctx: bool) returns (ok: bool, err: bool, ghost x: Trip, ghost at: nat)
      requires Valid(w) && w.At(id).op.Refreshing? && (ctx ==> w.At(id).phase.Manual?)
      modifies this, w
      ensures Valid(w) && w.At(id) == LockReturns(old(w.At(id)).(token := token), ok, err, at)
      ensures ok ==> !err && token != ""
      ensures Asked(x, old(token), ttl, true) && old(token) != ""
      ensures RefreshEnds(x, old(token), ok, err)
    {
      RefreshingHasToken(w);
      ghost var k := w.At(id);
      var status, failed, x', at0 := Send(w);
      x := x';
      SentAsked(x, id, k);
      if failed {
        return false, true, x, at0;
      } else if status {
        return true, false, x, at0;
      }
      var ok', err', _, _, at' := Create(w, ctx);
      return ok', err', x, at';
    }

    /** What the outcome of the compare-and-expire means for the call and the token. */
    predicate RefreshEnds(x: Trip, token0: string, ok: bool, err: bool)
      reads `token
    {
      match Seen(x)
      case Error => err && !ok && token == token0
      case Yes => ok && !err && token == token0
      case No => ok <==> token != ""
    }

    lemma RefreshingHasToken(w: World)
      requires Valid(w) && w.At(id).op.Refreshing?
      ensures token != ""
    {
      assert Reachable(w.s);
      ReachableInv(w.s);
      assert LockerInv(w.s.g, id, w.s.lockers[id]);
    }

    /** With a token it starts with a compare-and-expire of it, and goes by the outcome; without one it creates. */
    method LockWithContext(w: World, ctx: bool) returns (ok: bool, err: bool, ghost x: Option<Trip>)
      requires Valid(w) && w.At(id).op.Idle? && (w.At(id).phase.Manual? || (w.At(id).phase.Ready? && !ctx))
      modifies this, w
      ensures Valid(w) && w.At(id).op.Idle? && w.At(id).result == Locked(ok, err)
      ensures ok ==> !err && token != ""
      ensures !ok ==> token == "" || (err && token == old(token))
      ensures x.Some? <==> old(token) != ""
      ensures x.Some? ==> Asked(x.value, old(token), ttl, true) && RefreshEnds(x.value, old(token), ok, err)
      ensures old(w.At(id).phase.Manual?) ==> w.At(id).phase.Manual?
      ensures old(w.At(id).phase.Ready?) ==> if ok then w.At(id).phase.Handling? else w.At(id).phase.ReturnedErr?
    {
      w.Others(id);
      var _, _ := w.Act(Call(id), id);
      if token != "" {
        var ok', err', x', _ := Refresh(w, ctx);
        return ok', err', Some(x');
      }
      var ok', err', _, _, _ := Create(w, ctx);
      return ok', err', None;
    }

    /** release, with its deferred reset: whatever came back, the locker forgets its token. */
    method Release(w: World) returns (err: bool, ghost x: Trip, ghost at: nat)
      requires Valid(w) && w.At(id).op.Releasing?
      modifies this, w
      ensures Valid(w) && token == "" && w.At(id) == UnlockReturns(old(w.At(id)), err)
      ensures Asked(x, old(token), ttl, false) && (!err <==> Seen(x).Yes?)
    {
      ghost var k := w.At(id);
      var deleted, failed, x', at0 := Send(w);
      x := x';
      SentAsked(x, id, k);
      token := "";
      return failed || !deleted, x, at0;
    }

    method Unlock(w: World) returns (err: bool, ghost x: Trip)
      requires Valid(w) && w.At(id).op.Idle? && w.At(id).phase.Manual?
      modifies this, w
      ensures Valid(w) && token == "" && w.At(id).op.Idle? && w.At(id).phase.Manual? && w.At(id).result == Unlocked(err)
      ensures Asked(x, old(token), ttl, false) && (!err <==> Seen(x).Yes?)
    {
      w.Others(id);
      var _, _ := w.Act(CallUnlock(id), id);
      var err', x', _ := Release(w);
      return err', x';
    }

    /**
     Run, from the fresh locker on: obtain, run the handler beside a timer, unlock if it was in time. It
     returns nil if and only if it got the lock, the handler was in time, and the delete took effect,
     which it does while the lease still runs, and was answered.
     */
    method Run(w: World)
      returns (err: bool, ghost obtained: bool, ghost inTime: bool, ghost t: string, ghost x: Trip)
      requires Valid(w) && w.At(id).op.Idle? && w.At(id).phase.Ready? && token == ""
      modifies this, w
      ensures Valid(w) && (w.At(id).phase.ReturnedNil? || w.At(id).phase.ReturnedErr?)
      ensures !err <==> w.At(id).phase.ReturnedNil?
      ensures !err <==> obtained && inTime && x.Ran? && x.answer && !x.lost
      ensures obtained && inTime ==> t != "" && Asked(x, t, ttl, false) && (!err ==> w.At(id).phase.run == t)
    {
      x, t := GivenUp, "";
      var ok, failed, _ := LockWithContext(w, false);
      obtained, inTime := ok, false;
      if failed || !ok {
        return true, false, false, t, x;
      }
      w.Others(id);
      var done: bool := *;
      if done {
        t := token;
        var _, _ := w.Act(HandlerDone(id), id);
        var err', x', _ := Release(w);
        return err', true, true, t, x';
      }
      var _, _ := w.Act(TimeOut(id), id);
      return true, true, false, t, x;
    }
  }

  /** Two calls of Run that have returned nil in a world never ran their handlers together. */
  lemma RunsExclusive(w: World, i: nat, j: nat)
    requires w.Valid() && i < |w.s.lockers| && j < |w.s.lockers| && i != j
    requires w.At(i).phase.ReturnedNil? && w.At(j).phase.ReturnedNil?
    ensures var p, q := w.At(i).phase, w.At(j).phase; p.end < q.start || q.end < p.start
  {
    assert Reachable(w.s);
    HandlersDisjoint(w.s, i, j);
  }
}
